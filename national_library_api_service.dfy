/** NationalLibraryApiService: the National Library's book search (JSON), the
    merge of its title and author searches, and its librarian
    recommendations (XML), of which the latest are sampled at random. */
module NationalLibraryApiService {
  import opened Wrappers
  import opened Text
  import opened Sequences
  import opened Http
  import opened Json
  import opened Entities
  import opened Shuffle
  import Xml

  // ---------------------------------------------------------------------
  // book search
  // ---------------------------------------------------------------------

  /** One entry of `docs`: every field is read with `optString(key, "")`, an
      empty `TITLE_URL` becomes null; an entry that is not an object makes
      `getJSONObject` throw (None). */
  function ParseDoc(doc: Json): (r: Option<BookApiDto>)
    ensures r.Some? <==> doc.JObj?
    ensures r.Some? ==>
      r.value.title == Some(OptString(doc.fields, "TITLE", "")) &&
      r.value.author == Some(OptString(doc.fields, "AUTHOR", "")) &&
      r.value.publisher == Some(OptString(doc.fields, "PUBLISHER", "")) &&
      r.value.isbn == Some(OptString(doc.fields, "EA_ISBN", "")) &&
      r.value.publishDate == Some(OptString(doc.fields, "PUBLISH_PREDATE", "")) &&
      r.value.page == Some(OptString(doc.fields, "PAGE", "")) &&
      r.value.subject == Some(OptString(doc.fields, "SUBJECT", "")) &&
      r.value.description.None?
    ensures r.Some? ==>
      (r.value.coverUrl.None? <==> OptString(doc.fields, "TITLE_URL", "") == "") &&
      (r.value.coverUrl.Some? ==> r.value.coverUrl.value == OptString(doc.fields, "TITLE_URL", ""))
  {
    match doc
    case JObj(o, _) =>
      var cover := OptString(o, "TITLE_URL", "");
      Some(BookApiDto(
        title := Some(OptString(o, "TITLE", "")),
        author := Some(OptString(o, "AUTHOR", "")),
        publisher := Some(OptString(o, "PUBLISHER", "")),
        isbn := Some(OptString(o, "EA_ISBN", "")),
        coverUrl := if cover == "" then None else Some(cover),
        publishDate := Some(OptString(o, "PUBLISH_PREDATE", "")),
        page := Some(OptString(o, "PAGE", "")),
        subject := Some(OptString(o, "SUBJECT", "")),
        description := None))
    case _ => None
  }

  /** The `docs` array of a readable, non-blank body that has one. */
  function Docs(body: Body): Option<seq<Json>>
  {
    if IsNullOrBlankBody(body) then None
    else
      match body.parsed
      case None => None
      case Some(o) => GetArray(o, "docs")
  }

  /** What `parseResponse` returns: nothing for a null or blank body, a body
      that is not a JSON object, or one without a `docs` array; otherwise the
      entries read until the first one that throws. */
  function ParsedBooks(body: Body): (r: seq<BookApiDto>)
    ensures IsNullOrBlankBody(body) ==> r == []
    ensures !IsNullOrBlankBody(body) && body.parsed.Some? && !Has(body.parsed.value, "docs") ==> r == []
    ensures |r| <= (match Docs(body) case None => 0 case Some(d) => |d|)
  {
    match Docs(body)
    case None => []
    case Some(docs) => ParseWhile(ParseDoc, docs)
  }

  /** `parseResponse`. */
  method ParseResponse(body: Body) returns (books: seq<BookApiDto>)
    ensures books == ParsedBooks(body)
  {
    books := [];
    var found := Docs(body);
    if found.None? {
      return;
    }
    var docs := found.value;
    books := ParseEach(ParseDoc, docs);
  }

  /** When every entry is an object, every entry becomes a hit. */
  lemma ParsedBooksOfObjects(body: Body)
    requires Docs(body).Some?
    requires forall i :: 0 <= i < |Docs(body).value| ==> Docs(body).value[i].JObj?
    ensures |ParsedBooks(body)| == |Docs(body).value|
  {
    ParseWhileAll(ParseDoc, Docs(body).value);
  }

  /** `searchByTitle`, `searchByAuthor`, `searchByPublisher`: the hits of the
      answer, none when the call fails. */
  function SearchResults(reply: Reply<Body>): (r: seq<BookApiDto>)
    ensures reply.CallFailed? ==> r == []
  {
    match reply
    case CallFailed => []
    case Answered(body) => ParsedBooks(body)
  }

  /** Every hit a search returns has an ISBN (the empty string when the entry
      has no `EA_ISBN`), so the `getIsbn() != null` test of the merge never
      exempts one. */
  lemma SearchHitsCarryIsbn(reply: Reply<Body>)
    ensures forall i :: 0 <= i < |SearchResults(reply)| ==> SearchResults(reply)[i].isbn.Some?
  {
    if reply.Answered? && Docs(reply.body).Some? {
      ParseWhileParses(ParseDoc, Docs(reply.body).value);
    }
  }

  /** `searchByTitle`, `searchByAuthor` and `searchByPublisher`, which differ
      only in the query parameter they send. */
  method SearchBy(reply: Reply<Body>) returns (books: seq<BookApiDto>)
    ensures books == SearchResults(reply)
  {
    match reply
    case CallFailed =>
      books := [];
    case Answered(body) =>
      books := ParseResponse(body);
  }

  // ---------------------------------------------------------------------
  // merged search
  // ---------------------------------------------------------------------

  /** `results.stream().anyMatch(b -> b.getIsbn() != null &&
      b.getIsbn().equals(book.getIsbn()))`. */
  predicate IsbnTaken(results: seq<BookApiDto>, book: BookApiDto)
  {
    exists i :: 0 <= i < |results| && results[i].isbn.Some? && results[i].isbn == book.isbn
  }

  /** The loop of `search` over the author hits, from the list collected so
      far: `MergeFrom(titles, authors)` is what `search` returns. */
  function MergeFrom(results: seq<BookApiDto>, authors: seq<BookApiDto>): seq<BookApiDto>
    decreases |authors|
  {
    if authors == [] then results
    else
      var next := if IsbnTaken(results, authors[0]) then results else results + [authors[0]];
      MergeFrom(next, authors[1..])
  }

  /** Scans the collected list as `anyMatch` does. */
  method IsbnAlreadyCollected(results: seq<BookApiDto>, book: BookApiDto) returns (taken: bool)
    ensures taken <==> IsbnTaken(results, book)
  {
    taken := false;
    var j := 0;
    while j < |results|
      invariant 0 <= j <= |results|
      invariant taken <==> IsbnTaken(results[..j], book)
    {
      if results[j].isbn.Some? && results[j].isbn == book.isbn {
        taken := true;
      }
      assert results[..j + 1] == results[..j] + [results[j]];
      j := j + 1;
    }
    assert results[..j] == results;
  }

  /** `search`. */
  method Search(titleReply: Reply<Body>, authorReply: Reply<Body>)
    returns (results: seq<BookApiDto>)
    ensures results == MergeFrom(SearchResults(titleReply), SearchResults(authorReply))
  {
    var titles := SearchBy(titleReply);
    results := titles;
    var authors := SearchBy(authorReply);
    var i := 0;
    while i < |authors|
      invariant 0 <= i <= |authors|
      invariant MergeFrom(titles, authors) == MergeFrom(results, authors[i..])
    {
      assert authors[i..][1..] == authors[i + 1..];
      var book := authors[i];
      var taken := IsbnAlreadyCollected(results, book);
      if !taken {
        results := results + [book];
      }
      i := i + 1;
    }
  }

  /** The collected list only grows, by at most one item per author hit, and
      what was collected before stays in front, unchanged. */
  lemma {:induction false} MergeKeepsPrefix(results: seq<BookApiDto>, authors: seq<BookApiDto>)
    ensures |results| <= |MergeFrom(results, authors)| <= |results| + |authors|
    ensures MergeFrom(results, authors)[..|results|] == results
    decreases |authors|
  {
    if authors != [] {
      var next := if IsbnTaken(results, authors[0]) then results else results + [authors[0]];
      MergeKeepsPrefix(next, authors[1..]);
      assert next[..|results|] == results;
    }
  }

  /** Taken ISBNs stay taken as the list grows. */
  lemma TakenInLonger(a: seq<BookApiDto>, b: seq<BookApiDto>, book: BookApiDto)
    requires |a| <= |b| && b[..|a|] == a
    requires IsbnTaken(a, book)
    ensures IsbnTaken(b, book)
  {
    var i :| 0 <= i < |a| && a[i].isbn.Some? && a[i].isbn == book.isbn;
    assert b[i] == a[i];
  }

  /** Every item the merge adds is an author hit whose ISBN no item before it
      carries, and every author hit either was added or has its ISBN taken in
      the final list. */
  lemma {:induction false} MergeAddsOnlyNewIsbns(results: seq<BookApiDto>, authors: seq<BookApiDto>)
    ensures var r := MergeFrom(results, authors);
      |results| <= |r| &&
      (forall k :: |results| <= k < |r| ==> r[k] in authors && !IsbnTaken(r[..k], r[k]))
    ensures var r := MergeFrom(results, authors);
      forall a :: a in authors ==> a in r[|results|..] || IsbnTaken(r, a)
    decreases |authors|
  {
    MergeKeepsPrefix(results, authors);
    if authors != [] {
      var r := MergeFrom(results, authors);
      var a0 := authors[0];
      var next := if IsbnTaken(results, a0) then results else results + [a0];
      MergeAddsOnlyNewIsbns(next, authors[1..]);
      MergeKeepsPrefix(next, authors[1..]);
      assert r == MergeFrom(next, authors[1..]);
      assert r[..|next|] == next;
      forall k | |results| <= k < |r| ensures r[k] in authors && !IsbnTaken(r[..k], r[k]) {
        if k < |next| {
          assert k == |results| && next == results + [a0];
          assert r[k] == a0;
          assert r[..k] == results;
        }
      }
      forall a | a in authors ensures a in r[|results|..] || IsbnTaken(r, a) {
        if a == a0 {
          if IsbnTaken(results, a0) {
            TakenInLonger(results, r, a0);
          } else {
            assert r[|results|] == a0;
          }
        } else {
          assert a in authors[1..];
          if a in r[|next|..] {
            var k :| |next| <= k < |r| && r[k] == a;
            assert r[|results|..][k - |results|] == a;
          }
        }
      }
    }
  }

  /** The items the merge adds are the author hits in their own order, some
      left out. */
  lemma {:induction false} MergeAddsSubsequence(results: seq<BookApiDto>, authors: seq<BookApiDto>)
    ensures |results| <= |MergeFrom(results, authors)|
    ensures IsSubsequence(MergeFrom(results, authors)[|results|..], authors)
    decreases |authors|
  {
    MergeKeepsPrefix(results, authors);
    if authors != [] {
      var r := MergeFrom(results, authors);
      var a0 := authors[0];
      var next := if IsbnTaken(results, a0) then results else results + [a0];
      MergeAddsSubsequence(next, authors[1..]);
      MergeKeepsPrefix(next, authors[1..]);
      assert r == MergeFrom(next, authors[1..]);
      if !IsbnTaken(results, a0) {
        assert r[|results|..][0] == r[|results|] == next[|results|] == a0;
        assert r[|results|..][1..] == r[|next|..];
      }
    }
  }

  /** Merging one more author hit: it is appended exactly when no item
      collected so far carries its ISBN. */
  lemma {:induction false} MergeFromSnoc(results: seq<BookApiDto>, authors: seq<BookApiDto>, book: BookApiDto)
    ensures var m := MergeFrom(results, authors);
      MergeFrom(results, authors + [book]) == if IsbnTaken(m, book) then m else m + [book]
    decreases |authors|
  {
    if authors == [] {
      assert authors + [book] == [book];
      var next := if IsbnTaken(results, book) then results else results + [book];
      assert MergeFrom(results, [book]) == MergeFrom(next, []);
    } else {
      var next := if IsbnTaken(results, authors[0]) then results else results + [authors[0]];
      assert (authors + [book])[0] == authors[0];
      assert (authors + [book])[1..] == authors[1..] + [book];
      MergeFromSnoc(next, authors[1..], book);
    }
  }

  /** Author hit `j` is added to the list exactly when its ISBN is not taken
      by what the first `j` author hits left collected. */
  lemma MergeStep(results: seq<BookApiDto>, authors: seq<BookApiDto>, j: nat)
    requires j < |authors|
    ensures var m := MergeFrom(results, authors[..j]);
      MergeFrom(results, authors[..j + 1]) == if IsbnTaken(m, authors[j]) then m else m + [authors[j]]
  {
    assert authors[..j + 1] == authors[..j] + [authors[j]];
    MergeFromSnoc(results, authors[..j], authors[j]);
  }

  /** The dedup test compares the ISBN as read, so two author hits whose
      `EA_ISBN` is the empty string count as the same book and the second is
      dropped. */
  lemma EmptyIsbnsCollide(a: BookApiDto, b: BookApiDto)
    requires a.isbn == Some("") && b.isbn == Some("")
    ensures MergeFrom([], [a, b]) == [a]
  {
    assert !IsbnTaken([], a);
    assert [a][0].isbn.Some? && [a][0].isbn == b.isbn;
    assert IsbnTaken([a], b);
    assert [a, b][1..] == [b];
    var none: seq<BookApiDto> := [];
    assert none + [a] == [a];
    assert MergeFrom([], [a, b]) == MergeFrom([a], [b]);
    assert MergeFrom([a], [b]) == MergeFrom([a], []);
  }

  /** An author hit without an ISBN is never matched, so it is always added. */
  lemma NullIsbnAlwaysAdded(results: seq<BookApiDto>, book: BookApiDto)
    requires book.isbn.None?
    ensures MergeFrom(results, [book]) == results + [book]
  {
    assert !IsbnTaken(results, book);
    assert MergeFrom(results, [book]) == MergeFrom(results + [book], []);
  }

  /** `getBookByIsbn`: the first hit, or null when there is none or the call
      fails. */
  method GetBookByIsbn(reply: Reply<Body>) returns (book: Option<BookApiDto>)
    ensures book.None? <==> SearchResults(reply) == []
    ensures book.Some? ==> book.value == SearchResults(reply)[0]
  {
    var books := SearchBy(reply);
    book := if |books| == 0 then None else Some(books[0]);
  }

  // ---------------------------------------------------------------------
  // librarian recommendations
  // ---------------------------------------------------------------------

  /** `getTagValue`: the text of the first descendant named `tag`, as it is,
      or "" when there is none or its text is blank. */
  function TagValue(tag: string, item: Xml.Element): (r: string)
    ensures r == "" || (Xml.FirstText(item.descendants, tag) == Some(r) && !IsBlank(r))
    ensures Xml.FirstText(item.descendants, tag).None? ==> r == ""
    ensures Xml.FirstText(item.descendants, tag).Some? && !IsBlank(Xml.FirstText(item.descendants, tag).value) ==>
      r == Xml.FirstText(item.descendants, tag).value
  {
    match Xml.FirstText(item.descendants, tag)
    case None => ""
    case Some(v) => if IsBlank(v) then "" else v
  }

  /** The publication year: not set for an empty tag, the number when
      `Integer.parseInt` accepts the text, 0 when it throws. */
  function PublishYear(text: string): (r: Option<int>)
    ensures text == "" <==> r.None?
    ensures r.Some? ==> IsInt32(r.value)
    ensures ParseInt(text).Some? ==> r == ParseInt(text)
    ensures text != "" && ParseInt(text).None? ==> r == Some(0)
  {
    if text == "" then None
    else
      match ParseInt(text)
      case Some(v) => Some(v)
      case None => Some(0)
  }

  /** One `item` element as `parseRecommendXmlResponse` reads it. */
  function ParseItem(item: Xml.Element): RecommendedBookDto
  {
    var cover := TagValue("recomfilepath", item);
    RecommendedBookDto(
      title := TagValue("recomtitle", item),
      author := TagValue("recomauthor", item),
      publisher := TagValue("recompublisher", item),
      isbn := TagValue("recomisbn", item),
      coverUrl := if cover == "" then None else Some(cover),
      contents := TagValue("recomcontens", item),
      category := TagValue("drCodeName", item),
      categoryCode := TagValue("drCode", item),
      publishYear := PublishYear(TagValue("publishYear", item)))
  }

  /** Every field of a recommendation is the value of its tag, the cover is
      null exactly when its tag gives "", and the year is read as
      `PublishYear` says. */
  lemma ParseItemFields(item: Xml.Element)
    ensures var r := ParseItem(item);
      r.title == TagValue("recomtitle", item) && r.author == TagValue("recomauthor", item) &&
      r.publisher == TagValue("recompublisher", item) && r.isbn == TagValue("recomisbn", item) &&
      r.contents == TagValue("recomcontens", item) && r.category == TagValue("drCodeName", item) &&
      r.categoryCode == TagValue("drCode", item) &&
      (r.coverUrl.None? <==> TagValue("recomfilepath", item) == "") &&
      (r.coverUrl.Some? ==> r.coverUrl.value == TagValue("recomfilepath", item)) &&
      r.publishYear == PublishYear(TagValue("publishYear", item))
  {
  }

  /** What `parseRecommendXmlResponse` returns: one recommendation per `item`
      element, in document order; nothing when the body is null (the `getBytes`
      call throws) or is not a readable document. Reading an item never
      throws, so no item is lost. */
  function Recommendations(body: Xml.Body): (r: seq<RecommendedBookDto>)
    ensures body.NullBody? || body.items.None? ==> r == []
    ensures body.Text? && body.items.Some? ==>
      |r| == |body.items.value| &&
      forall i :: 0 <= i < |r| ==> r[i] == ParseItem(body.items.value[i])
  {
    match body
    case NullBody => []
    case Text(_, items) =>
      match items
      case None => []
      case Some(elems) => MapAll(ParseItem, elems)
  }

  /** `parseRecommendXmlResponse`. */
  method ParseRecommendXmlResponse(body: Xml.Body) returns (books: seq<RecommendedBookDto>)
    ensures books == Recommendations(body)
  {
    books := [];
    if body.NullBody? || body.items.None? {
      return;
    }
    var items := body.items.value;
    var i := 0;
    while i < |items|
      invariant 0 <= i <= |items|
      invariant books == MapAll(ParseItem, items[..i])
    {
      MapAllStep(ParseItem, items, i);
      books := books + [ParseItem(items[i])];
      i := i + 1;
    }
    assert items[..i] == items;
  }

  /** What `getLatestRecommendedBooks(count)` returns for the answer to its
      request: nothing when the call fails or the answer is null or blank;
      otherwise the selection made from the parsed recommendations, and
      nothing when that selection throws. */
  function LatestRecommended(count: int, reply: Reply<Xml.Body>, draw: Draw, entropy: int)
    : seq<RecommendedBookDto>
  {
    match reply
    case CallFailed => []
    case Answered(body) =>
      if body.NullBody? || IsBlank(body.text) then []
      else Selection(Recommendations(body), count, draw, entropy).GetOr([])
  }

  /** `getLatestRecommendedBooks`. `api(rows)` is the answer to a request for
      the first `rows` recommendations; `draw` and `entropy` stand for the
      shared `Random` that `Collections.shuffle` creates on its first use and
      reuses on every later call. */
  method GetLatestRecommendedBooks(count: int, api: int -> Reply<Xml.Body>, draw: Draw, entropy: int)
    returns (books: seq<RecommendedBookDto>)
    requires IsInt32(count)
    ensures books == LatestRecommended(count, api(FetchCount(count)), draw, entropy)
  {
    var fetchCount := FetchCount(count);
    var reply := api(fetchCount);
    if reply.CallFailed? || reply.body.NullBody? || IsBlank(reply.body.text) {
      return [];
    }
    var all := ParseRecommendXmlResponse(reply.body);
    var picked := Select(all, count, draw, entropy);
    books := picked.GetOr([]);
  }

  /** The latest recommendations are `count` of those the service received,
      each at most as often as received, when it received more than `count`;
      all of them otherwise; and never more than `count` when `count` is not
      negative. */
  lemma LatestRecommendedDrawsFromAnswer(count: int, body: Xml.Body, draw: Draw, entropy: int)
    requires body.Text? && !IsBlank(body.text)
    ensures var all := Recommendations(body);
      var r := LatestRecommended(count, Answered(body), draw, entropy);
      (0 <= count < |all| ==> |r| == count && multiset(r) <= multiset(all)) &&
      (|all| <= count ==> r == all) &&
      (count < 0 && |all| > 0 ==> r == [])
  {
    SelectionDrawsFromList(Recommendations(body), count, draw, entropy);
  }

  /** `getMonthlyRecommendedBooks` and `getRecommendedBooksByCategory`: the
      parsed answer to their request, nothing when the call fails. */
  method ListRecommended(reply: Reply<Xml.Body>) returns (books: seq<RecommendedBookDto>)
    ensures reply.CallFailed? ==> books == []
    ensures reply.Answered? ==> books == Recommendations(reply.body)
  {
    match reply
    case CallFailed =>
      books := [];
    case Answered(body) =>
      books := ParseRecommendXmlResponse(body);
  }
}
