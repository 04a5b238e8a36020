/** AiRecommendationService: chooses between a personalised and a trend
    prompt, gathers the reading statistics the personalised prompt is built
    from, and reads the recommendations back from the OpenAI answer. */
module AiRecommendationService {
  import opened Wrappers
  import opened Text
  import opened Sequences
  import opened Http
  import opened Json
  import opened Entities

  /** `MIN_BOOKS_FOR_PERSONALIZED`. */
  const MinBooksForPersonalized := 3
  const RecentLimit := 5
  const HighRatedLimit := 5
  const TopGenreLimit := 3

  // ---------------------------------------------------------------------
  // reading statistics
  // ---------------------------------------------------------------------

  /** `"READ".equals(b.getStatus())`. */
  predicate IsRead(b: Book)
  {
    b.status == Some("READ")
  }

  /** `b.getRating() != null && b.getRating() >= 4`. */
  predicate IsHighRated(b: Book)
  {
    b.rating.Some? && b.rating.value >= 4
  }

  /** The sort key of the high-rated list. */
  function RatingOf(b: Book): int
  {
    b.rating.GetOr(0)
  }

  /** The recently read books: the first five with status "READ", in the
      repository's order (newest first). */
  function RecentBooks(books: seq<Book>): seq<Book>
  {
    Take(Filter(books, IsRead), RecentLimit)
  }

  /** The best-rated books: those rated 4 or more, by rating from highest to
      lowest (equal ratings keep the repository's order), the first five. */
  function HighRatedBooks(books: seq<Book>): seq<Book>
  {
    Take(SortDesc(Filter(books, IsHighRated), RatingOf), HighRatedLimit)
  }

  lemma RecentBooksAreFirstRead(books: seq<Book>)
    ensures var r := RecentBooks(books);
      |r| <= RecentLimit &&
      (forall i :: 0 <= i < |r| ==> r[i] in books && IsRead(r[i])) &&
      IsSubsequence(r, books) &&
      (|Filter(books, IsRead)| >= RecentLimit ==> |r| == RecentLimit) &&
      (|Filter(books, IsRead)| < RecentLimit ==> r == Filter(books, IsRead))
  {
    TakeFilterIsSubsequence(books, IsRead, RecentLimit);
  }

  lemma HighRatedBooksAreBest(books: seq<Book>)
    ensures var r := HighRatedBooks(books);
      |r| <= HighRatedLimit &&
      (forall i :: 0 <= i < |r| ==> r[i] in books && IsHighRated(r[i])) &&
      SortedDesc(r, RatingOf) &&
      (|Filter(books, IsHighRated)| >= HighRatedLimit ==> |r| == HighRatedLimit)
    ensures var r := HighRatedBooks(books);
      forall b, i :: b in books && IsHighRated(b) && b !in r && 0 <= i < |r| ==>
        RatingOf(r[i]) >= RatingOf(b)
  {
    var f := Filter(books, IsHighRated);
    var r := HighRatedBooks(books);
    TakeOfSortDesc(f, RatingOf, HighRatedLimit);
    forall i | 0 <= i < |r| ensures r[i] in books && IsHighRated(r[i]) {
      assert r[i] in multiset(r);
      assert r[i] in multiset(f);
    }
  }

  /** The high-rated list is a stable sort: two books with the same rating
      come in the order they had in the repository's list. */
  lemma HighRatedSortIsStable(books: seq<Book>, k: int)
    ensures var s := SortDesc(Filter(books, IsHighRated), RatingOf);
      WithKey(s, RatingOf, k) == WithKey(Filter(books, IsHighRated), RatingOf, k) &&
      HighRatedBooks(books) == s[..|HighRatedBooks(books)|]
  {
  }

  // ---------------------------------------------------------------------
  // the genre tally
  // ---------------------------------------------------------------------

  /** `b.getGenre() != null && !b.getGenre().isEmpty()`. */
  predicate HasGenre(b: Book)
  {
    b.genre.Some? && b.genre.value != ""
  }

  /** A `Map<String, Long>` from `groupingBy(..., counting())`, as a list of
      genre and count; the order of the list carries no meaning. */
  type Tally = seq<(string, nat)>

  /** Counts one more book of genre `g`. */
  function Bump(t: Tally, g: string): (r: Tally)
    ensures |r| == |t| || |r| == |t| + 1
  {
    if t == [] then [(g, 1)]
    else if t[0].0 == g then [(g, t[0].1 + 1)] + t[1..]
    else [t[0]] + Bump(t[1..], g)
  }

  /** The genre counts of the books that have a genre. */
  function GenreCounts(books: seq<Book>): Tally
  {
    if books == [] then []
    else
      var rest := GenreCounts(books[1..]);
      if HasGenre(books[0]) then Bump(rest, books[0].genre.value) else rest
  }

  /** The count recorded for `g`, 0 when there is none. */
  function CountOf(t: Tally, g: string): nat
  {
    if t == [] then 0 else if t[0].0 == g then t[0].1 else CountOf(t[1..], g)
  }

  /** The sum of all counts. */
  function Total(t: Tally): nat
  {
    if t == [] then 0 else t[0].1 + Total(t[1..])
  }

  /** The number of books whose genre is `g`. */
  function BooksOfGenre(books: seq<Book>, g: string): nat
  {
    if books == [] then 0
    else (if books[0].genre == Some(g) then 1 else 0) + BooksOfGenre(books[1..], g)
  }

  /** Every genre is listed once, with a count of at least 1. */
  predicate WellFormed(t: Tally)
  {
    (forall i, j :: 0 <= i < j < |t| ==> t[i].0 != t[j].0) &&
    (forall i :: 0 <= i < |t| ==> t[i].1 >= 1)
  }

  lemma {:induction false} BumpCounts(t: Tally, g: string, h: string)
    ensures CountOf(Bump(t, g), h) == CountOf(t, h) + (if g == h then 1 else 0)
    ensures Total(Bump(t, g)) == Total(t) + 1
  {
    if t != [] && t[0].0 != g {
      BumpCounts(t[1..], g, h);
      assert Bump(t, g)[1..] == Bump(t[1..], g);
    }
  }

  /** Bumping `g` adds no genre other than `g`. */
  lemma {:induction false} BumpAvoids(t: Tally, g: string, h: string)
    requires h != g
    requires forall j :: 0 <= j < |t| ==> t[j].0 != h
    ensures forall i :: 0 <= i < |Bump(t, g)| ==> Bump(t, g)[i].0 != h
  {
    if t != [] && t[0].0 != g {
      var rest := t[1..];
      assert forall j :: 0 <= j < |rest| ==> rest[j] == t[j + 1];
      BumpAvoids(rest, g, h);
      assert Bump(t, g) == [t[0]] + Bump(rest, g);
    }
  }

  lemma {:induction false} BumpWellFormed(t: Tally, g: string)
    requires WellFormed(t)
    ensures WellFormed(Bump(t, g))
  {
    if t != [] && t[0].0 != g {
      var rest := t[1..];
      assert forall j :: 0 <= j < |rest| ==> rest[j] == t[j + 1];
      assert WellFormed(rest);
      BumpWellFormed(rest, g);
      var bumped := Bump(rest, g);
      BumpAvoids(rest, g, t[0].0);
      var r := Bump(t, g);
      assert r == [t[0]] + bumped;
      assert forall i :: 0 < i < |r| ==> r[i] == bumped[i - 1];
    }
  }

  /** The tally of `groupingBy(Book::getGenre, counting())` over the books
      with a non-empty genre: each genre once, with the number of books that
      have it; empty genres are not counted; and the counts add up to the
      number of books that have a genre. */
  lemma {:induction false} GenreCountsAreCounts(books: seq<Book>, g: string)
    ensures WellFormed(GenreCounts(books))
    ensures g != "" ==> CountOf(GenreCounts(books), g) == BooksOfGenre(books, g)
    ensures CountOf(GenreCounts(books), "") == 0
    ensures Total(GenreCounts(books)) == |Filter(books, HasGenre)|
    ensures GenreCounts(books) == [] <==> Filter(books, HasGenre) == []
  {
    if books != [] {
      var rest := GenreCounts(books[1..]);
      GenreCountsAreCounts(books[1..], g);
      assert books == [books[0]] + books[1..];
      if HasGenre(books[0]) {
        BumpCounts(rest, books[0].genre.value, g);
        BumpCounts(rest, books[0].genre.value, "");
        BumpWellFormed(rest, books[0].genre.value);
      }
    }
  }

  /** The sort key of the genre ranking. */
  function Count(e: (string, nat)): int
  {
    e.1
  }

  /** The preferred genres named in the prompt: the three most counted. Which
      of several equally counted genres come first depends on `HashMap`
      order, which the model leaves unfixed. */
  function TopGenres(books: seq<Book>): Tally
  {
    Take(SortDesc(GenreCounts(books), Count), TopGenreLimit)
  }

  lemma TopGenresAreMostCounted(books: seq<Book>)
    ensures var top := TopGenres(books); var all := GenreCounts(books);
      |top| <= TopGenreLimit && (|all| >= TopGenreLimit ==> |top| == TopGenreLimit) &&
      multiset(top) <= multiset(all) && SortedDesc(top, Count)
    ensures var top := TopGenres(books); var all := GenreCounts(books);
      forall e, i :: e in all && e !in top && 0 <= i < |top| ==> top[i].1 >= e.1
  {
    var all := GenreCounts(books);
    var top := TopGenres(books);
    TakeOfSortDesc(all, Count, TopGenreLimit);
    forall e, i | e in all && e !in top && 0 <= i < |top| ensures top[i].1 >= e.1 {
      assert Count(top[i]) >= Count(e);
    }
  }

  /** The prompt names no genre exactly when no book has one. */
  lemma TopGenresEmptyIff(books: seq<Book>)
    ensures TopGenres(books) == [] <==> Filter(books, HasGenre) == []
  {
    GenreCountsAreCounts(books, "");
    assert |SortDesc(GenreCounts(books), Count)| == |GenreCounts(books)|;
  }

  // ---------------------------------------------------------------------
  // choosing the prompt
  // ---------------------------------------------------------------------

  /** What a prompt is built from. The wording around these inputs is not
      modelled. The personalised prompt also computes an author tally that it
      never uses, which is left out. */
  datatype Prompt =
    | Trend(count: int)
    | Personalized(totalBooks: nat, topGenres: Tally, recent: seq<Book>, highRated: seq<Book>, count: int)

  /** `buildPersonalizedPrompt` for three or more books, `buildTrendPrompt`
      otherwise. */
  function ChoosePrompt(books: seq<Book>, count: int): (p: Prompt)
    ensures p.Personalized? <==> |books| >= MinBooksForPersonalized
    ensures p.count == count
    ensures p.Personalized? ==>
      p.totalBooks == |books| && p.topGenres == TopGenres(books) &&
      p.recent == RecentBooks(books) && p.highRated == HighRatedBooks(books)
  {
    if |books| >= MinBooksForPersonalized then
      Personalized(|books|, TopGenres(books), RecentBooks(books), HighRatedBooks(books), count)
    else Trend(count)
  }

  // ---------------------------------------------------------------------
  // reading the answer
  // ---------------------------------------------------------------------

  /** The code-fence cleanup of the answer's content: trim, drop one leading
      "```json", then one leading "```", then one trailing "```", and trim
      again. */
  function StripFences(content: string): string
  {
    Trim(DropSuffix(DropPrefix(DropPrefix(Trim(content), "```json"), "```"), "```"))
  }

  /** Content without fences is only trimmed. */
  lemma StripFencesOfPlain(content: string)
    requires !StartsWith(Trim(content), "```") && !EndsWith(Trim(content), "```")
    ensures StripFences(content) == Trim(content)
  {
    var c0 := Trim(content);
    assert !StartsWith(c0, "```json") by {
      assert "```json"[..3] == "```";
    }
    TrimTwice(content);
  }

  /** JSON wrapped in a fenced block, with or without the `json` tag, comes
      out as it was. */
  lemma StripFencesOfFenced(fence: string, json: string)
    requires fence == "```json" || fence == "```"
    requires Trim(json) == json
    ensures StripFences(fence + "\n" + json + "\n" + "```") == json
  {
    var inner := "\n" + json + "\n";
    Regroup(fence, "\n", json, "\n", "```");
    FencedStrips(fence, inner + "```", inner, json);
  }

  lemma FencedStrips(fence: string, tail: string, inner: string, json: string)
    requires fence == "```json" || fence == "```"
    requires inner == "\n" + json + "\n" && tail == inner + "```"
    requires Trim(json) == json
    ensures StripFences(fence + tail) == json
  {
    var content := fence + tail;
    calc {
      StripFences(content);
      Trim(DropSuffix(DropPrefix(DropPrefix(Trim(content), "```json"), "```"), "```"));
      { FencedIsTrimmed(fence, tail); }
      Trim(DropSuffix(DropPrefix(DropPrefix(content, "```json"), "```"), "```"));
      { FenceTagDropped(fence, tail); }
      Trim(DropSuffix(tail, "```"));
      { DropSuffixOfConcat(inner, "```"); }
      Trim(inner);
      { TrimOfNewlines(json); }
      json;
    }
  }

  lemma Regroup(a: string, b: string, c: string, d: string, e: string)
    ensures a + b + c + d + e == a + ((b + c + d) + e)
  {
  }

  lemma TrimOfNewlines(s: string)
    requires Trim(s) == s
    ensures Trim("\n" + s + "\n") == s
  {
    var nl := "\n";
    assert IsTrimmed(nl[0]);
    TrimOfPadded(nl, s, nl);
  }

  lemma FencedIsTrimmed(fence: string, tail: string)
    requires fence == "```json" || fence == "```"
    requires |tail| >= 3 && tail[|tail| - 1] == '`'
    ensures Trim(fence + tail) == fence + tail
  {
    var content := fence + tail;
    assert content[0] == '`' && content[|content| - 1] == '`';
    TrimOfUntrimmedEnds(content);
  }

  /** The two leading drops remove exactly the fence in front of a tail that
      starts on a new line. */
  lemma FenceTagDropped(fence: string, tail: string)
    requires fence == "```json" || fence == "```"
    requires tail != [] && tail[0] == '\n'
    ensures DropPrefix(DropPrefix(fence + tail, "```json"), "```") == tail
  {
    assert !StartsWith(tail, "```");
    DropPrefixOfConcat(fence, tail);
    if fence == "```" {
      assert (fence + tail)[3] == '\n';
      assert !StartsWith(fence + tail, "```json");
    }
  }

  /** One recommendation: every field read with `optString(key, "")`; an
      entry that is not an object makes `getJSONObject` throw (None). */
  function ParseRecommendation(entry: Json): (r: Option<AiRecommendedBookDto>)
    ensures r.Some? <==> entry.JObj?
  {
    match entry
    case JObj(o, _) =>
      Some(AiRecommendedBookDto(
        title := OptString(o, "title", ""),
        author := OptString(o, "author", ""),
        publisher := OptString(o, "publisher", ""),
        category := OptString(o, "category", ""),
        description := OptString(o, "description", ""),
        reason := OptString(o, "reason", "")))
    case _ => None
  }

  /** A missing field of a recommendation becomes "". */
  lemma RecommendationFields(entry: Json)
    requires entry.JObj?
    ensures var o := entry.fields; var r := ParseRecommendation(entry).value;
      r.title == OptString(o, "title", "") && r.author == OptString(o, "author", "") &&
      r.publisher == OptString(o, "publisher", "") && r.category == OptString(o, "category", "") &&
      r.description == OptString(o, "description", "") && r.reason == OptString(o, "reason", "")
    ensures var o := entry.fields; var r := ParseRecommendation(entry).value;
      (!Has(o, "title") ==> r.title == "") && (!Has(o, "author") ==> r.author == "") &&
      (!Has(o, "publisher") ==> r.publisher == "") && (!Has(o, "category") ==> r.category == "") &&
      (!Has(o, "description") ==> r.description == "") && (!Has(o, "reason") ==> r.reason == "")
  {
  }

  /** `choices[0].message.content` of the answer when every step of that
      path exists with the right type, and `choices` is not empty. */
  function AnswerContent(body: Body): Option<string>
  {
    match body
    case NullBody => None
    case Text(_, parsed) =>
      match parsed
      case None => None
      case Some(o) =>
        match GetArray(o, "choices")
        case None => None
        case Some(choices) =>
          if |choices| == 0 then None
          else
            match AsObject(choices[0])
            case None => None
            case Some(first) =>
              match GetObject(first, "message")
              case None => None
              case Some(message) => GetString(message, "content")
  }

  /** The `recommendations` array of the cleaned content, which `parse` reads
      as a JSON object (None when `new JSONObject(content)` throws). */
  function RecommendationEntries(body: Body, parse: string -> Option<Object>): Option<seq<Json>>
  {
    match AnswerContent(body)
    case None => None
    case Some(content) =>
      match parse(StripFences(content))
      case None => None
      case Some(o) => GetArray(o, "recommendations")
  }

  /** What `parseOpenAiResponse` returns: nothing when any step up to the
      `recommendations` array throws or `choices` is empty; otherwise the
      entries read until the first one that throws. */
  function AnswerRecommendations(body: Body, parse: string -> Option<Object>): (r: seq<AiRecommendedBookDto>)
    ensures RecommendationEntries(body, parse).None? ==> r == []
    ensures RecommendationEntries(body, parse).Some? ==> |r| <= |RecommendationEntries(body, parse).value|
  {
    match RecommendationEntries(body, parse)
    case None => []
    case Some(entries) => ParseWhile(ParseRecommendation, entries)
  }

  /** An empty `choices` array gives no recommendations. */
  lemma NoChoicesNoRecommendations(text: string, o: Object, parse: string -> Option<Object>)
    requires GetArray(o, "choices") == Some([])
    ensures AnswerRecommendations(Text(text, Some(o)), parse) == []
  {
  }

  /** The cleanup steps of `parseOpenAiResponse`, reassigning `content`. */
  method CleanContent(raw: string) returns (content: string)
    ensures content == StripFences(raw)
  {
    assert |"```json"| == 7 && |"```"| == 3;
    content := Trim(raw);
    ghost var trimmed := content;
    if StartsWith(content, "```json") {
      content := content[7..];
    }
    assert content == DropPrefix(trimmed, "```json");
    ghost var untagged := content;
    if StartsWith(content, "```") {
      content := content[3..];
    }
    assert content == DropPrefix(untagged, "```");
    ghost var unfenced := content;
    if EndsWith(content, "```") {
      content := content[..|content| - 3];
    }
    assert content == DropSuffix(unfenced, "```");
    content := Trim(content);
  }

  /** The steps of `parseOpenAiResponse` up to the `recommendations` array. */
  method ReadEntries(body: Body, parse: string -> Option<Object>) returns (entries: Option<seq<Json>>)
    ensures entries == RecommendationEntries(body, parse)
  {
    var found := AnswerContent(body);
    if found.None? {
      return None;
    }
    var content := CleanContent(found.value);
    var json := parse(content);
    if json.None? {
      return None;
    }
    entries := GetArray(json.value, "recommendations");
  }

  /** `parseOpenAiResponse`. */
  method ParseOpenAiResponse(body: Body, parse: string -> Option<Object>)
    returns (books: seq<AiRecommendedBookDto>)
    ensures books == AnswerRecommendations(body, parse)
  {
    books := [];
    var listed := ReadEntries(body, parse);
    if listed.None? {
      return;
    }
    books := ParseEach(ParseRecommendation, listed.value);
  }

  /** `getRecommendations` for a user whose books, newest first, are
      `userBooks`. Without an API key nothing is asked and nothing returned;
      otherwise the prompt chosen for those books is sent (`sent`) and
      `openAi(prompt)` is the answer, of which the recommendations are
      read. */
  method GetRecommendations(apiKey: Option<string>, userBooks: seq<Book>, count: int,
                            openAi: Prompt -> Reply<Body>, parse: string -> Option<Object>)
    returns (books: seq<AiRecommendedBookDto>, sent: Option<Prompt>)
    ensures IsNullOrBlank(apiKey) ==> books == [] && sent.None?
    ensures !IsNullOrBlank(apiKey) ==>
      sent == Some(ChoosePrompt(userBooks, count)) &&
      (openAi(sent.value).CallFailed? ==> books == []) &&
      (openAi(sent.value).Answered? ==> books == AnswerRecommendations(openAi(sent.value).body, parse))
  {
    if apiKey.None? || IsBlank(apiKey.value) {
      return [], None;
    }
    var prompt := ChoosePrompt(userBooks, count);
    sent := Some(prompt);
    var reply := openAi(prompt);
    match reply
    case CallFailed =>
      books := [];
    case Answered(body) =>
      books := ParseOpenAiResponse(body, parse);
  }

  // ---------------------------------------------------------------------
  // analysis summary
  // ---------------------------------------------------------------------

  /** The summary map of `analyzeUserReadingPattern`. */
  datatype Analysis = Analysis(totalBooks: nat, canPersonalize: bool, genreDistribution: Tally,
                               averageRating: real)

  /** `analyzeUserReadingPattern`; the average is exact where Java computes
      a `double`, and 0 when no book is rated. */
  function AnalyzeUserReadingPattern(books: seq<Book>): (a: Analysis)
    ensures a.totalBooks == |books|
    ensures a.canPersonalize <==> |books| >= MinBooksForPersonalized
    ensures a.genreDistribution == GenreCounts(books)
    ensures RatedCount(books) == 0 ==> a.averageRating == 0.0
    ensures RatedCount(books) > 0 ==> a.averageRating * (RatedCount(books) as real) == RatingSum(books) as real
  {
    var rated := RatedCount(books);
    Analysis(|books|, |books| >= MinBooksForPersonalized, GenreCounts(books),
             if rated == 0 then 0.0 else (RatingSum(books) as real) / (rated as real))
  }

  /** The summary's `canPersonalize` says which prompt `getRecommendations`
      would send: the two use the same threshold. */
  lemma CanPersonalizeMatchesPrompt(books: seq<Book>, count: int)
    ensures AnalyzeUserReadingPattern(books).canPersonalize <==> ChoosePrompt(books, count).Personalized?
  {
  }
}
