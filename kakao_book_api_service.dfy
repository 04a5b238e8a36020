/** KakaoBookApiService: the two genre classifiers and the reading of a Kakao
    book-search answer into search hits. */
module KakaoBookApiService {
  import opened Wrappers
  import opened Text
  import opened Sequences
  import opened Http
  import opened Json
  import opened Entities

  // ---------------------------------------------------------------------
  // genre labels
  // ---------------------------------------------------------------------

  const Novel := "소설"
  const Essay := "에세이"
  const Poetry := "시"
  const SelfHelp := "자기계발"
  const Economy := "경제/경영"
  const Computing := "IT/컴퓨터"
  const History := "역사"
  const Science := "과학"
  const Humanities := "인문"
  const Other := "기타"

  /** The ten labels a classifier can return. */
  predicate IsGenre(g: string)
  {
    g == Novel || g == Essay || g == Poetry || g == SelfHelp || g == Economy ||
    g == Computing || g == History || g == Science || g == Humanities || g == Other
  }

  // ---------------------------------------------------------------------
  // ordered rule lists, first match wins
  // ---------------------------------------------------------------------

  /** A classification rule: it gives `genre` when some word of `anyOf`
      occurs and no word of `noneOf` does. */
  datatype Rule = Rule(genre: string, anyOf: seq<string>, noneOf: seq<string>)

  /** How a rule's words are looked for: `String.matches(".*(w1|w2|...).*")`
      or `String.contains`. */
  datatype Test = WholeMatch | Substring

  /** `rule` fires on `text`. */
  predicate Fires(test: Test, text: string, rule: Rule)
  {
    (match test
     case WholeMatch => MatchesAnyKeyword(text, rule.anyOf)
     case Substring => ContainsAny(text, rule.anyOf)) &&
    !ContainsAny(text, rule.noneOf)
  }

  /** The genre of the first rule from index `i` on that fires, or "기타"
      when none does. */
  function FirstFiringFrom(rules: seq<Rule>, test: Test, text: string, i: nat): string
    requires i <= |rules|
    decreases |rules| - i
  {
    if i == |rules| then Other
    else if Fires(test, text, rules[i]) then rules[i].genre
    else FirstFiringFrom(rules, test, text, i + 1)
  }

  /** First match wins: the earliest rule that fires gives the genre. */
  lemma {:induction false} FirstFiringAt(rules: seq<Rule>, test: Test, text: string, i: nat, k: nat)
    requires i <= k < |rules| && Fires(test, text, rules[k])
    requires forall j :: i <= j < k ==> !Fires(test, text, rules[j])
    ensures FirstFiringFrom(rules, test, text, i) == rules[k].genre
    decreases k - i
  {
    if i < k {
      FirstFiringAt(rules, test, text, i + 1, k);
    }
  }

  /** When no rule fires the result is "기타". */
  lemma {:induction false} FirstFiringNone(rules: seq<Rule>, test: Test, text: string, i: nat)
    requires i <= |rules|
    requires forall k :: i <= k < |rules| ==> !Fires(test, text, rules[k])
    ensures FirstFiringFrom(rules, test, text, i) == Other
    decreases |rules| - i
  {
    if i < |rules| {
      FirstFiringNone(rules, test, text, i + 1);
    }
  }

  /** The genre of the first rule that fires, or "기타" when none does. */
  function FirstFiring(rules: seq<Rule>, test: Test, text: string): string
  {
    FirstFiringFrom(rules, test, text, 0)
  }

  // ---------------------------------------------------------------------
  // inferGenreFromTitleAndContent
  // ---------------------------------------------------------------------

  const NovelWords := ["소설", "이야기", "장편", "단편", "novel"]
  const EssayWords := ["에세이", "수필", "산문", "일상", "기록"]
  const SelfHelpWords := ["자기계발", "성공", "습관", "동기부여", "자존감", "행복", "마음", "심리", "치유"]
  const EconomyWords := ["경제", "경영", "투자", "재테크", "마케팅", "비즈니스", "창업", "부자"]
  const ComputingWords := ["프로그래밍", "코딩", "개발", "java", "python", "javascript", "컴퓨터", "알고리즘", "데이터"]
  const HistoryWords := ["역사", "문화", "전쟁", "세계사", "한국사", "조선", "고려"]
  const ScienceWords := ["과학", "물리", "화학", "생물", "수학", "우주", "진화"]
  const HumanitiesWords := ["철학", "인문", "사상", "사회", "교양", "예술"]
  const PoetryWords := ["시집", "시", "poetry", "poem"]
  /** Words that keep a text from being read as poetry. */
  const PoetryBlockers := ["역사", "시대"]

  /** The rules of `inferGenreFromTitleAndContent`, in the order it tries
      them. */
  const TitleRules := [
    Rule(Novel, NovelWords, []),
    Rule(Essay, EssayWords, []),
    Rule(SelfHelp, SelfHelpWords, []),
    Rule(Economy, EconomyWords, []),
    Rule(Computing, ComputingWords, []),
    Rule(History, HistoryWords, []),
    Rule(Science, ScienceWords, []),
    Rule(Humanities, HumanitiesWords, []),
    Rule(Poetry, PoetryWords, PoetryBlockers)]

  /** The text the title classifier looks at. */
  function GenreText(title: string, content: string): string
  {
    ToLower(title + " " + content)
  }

  /** `inferGenreFromTitleAndContent`. */
  function InferGenreFromTitleAndContent(title: string, content: string): (r: string)
    ensures IsGenre(r)
    ensures r == Poetry ==>
      !Contains(GenreText(title, content), "역사") && !Contains(GenreText(title, content), "시대")
    ensures !HasNoLineTerminator(GenreText(title, content)) ==> r == Other
  {
    var text := GenreText(title, content);
    if MatchesAnyKeyword(text, NovelWords) then Novel
    else if MatchesAnyKeyword(text, EssayWords) then Essay
    else if MatchesAnyKeyword(text, SelfHelpWords) then SelfHelp
    else if MatchesAnyKeyword(text, EconomyWords) then Economy
    else if MatchesAnyKeyword(text, ComputingWords) then Computing
    else if MatchesAnyKeyword(text, HistoryWords) then History
    else if MatchesAnyKeyword(text, ScienceWords) then Science
    else if MatchesAnyKeyword(text, HumanitiesWords) then Humanities
    else if MatchesAnyKeyword(text, PoetryWords) && !Contains(text, "역사") && !Contains(text, "시대") then Poetry
    else Other
  }

  lemma NoBlockers(text: string)
    ensures !ContainsAny(text, [])
  {
  }

  lemma BlockersAre(text: string)
    ensures ContainsAny(text, PoetryBlockers) <==> Contains(text, "역사") || Contains(text, "시대")
  {
    if Contains(text, "역사") {
      assert PoetryBlockers[0] == "역사";
    }
    if Contains(text, "시대") {
      assert PoetryBlockers[1] == "시대";
    }
  }

  /** The title classifier returns the label of the first rule of
      `TitleRules` that fires, and "기타" when none does. */
  lemma InferGenreIsFirstMatch(title: string, content: string)
    ensures InferGenreFromTitleAndContent(title, content) ==
      FirstFiring(TitleRules, WholeMatch, GenreText(title, content))
  {
    var text := GenreText(title, content);
    var rules := TitleRules;
    NoBlockers(text);
    BlockersAre(text);
    assert FirstFiringFrom(rules, WholeMatch, text, 9) == Other;
    assert FirstFiringFrom(rules, WholeMatch, text, 8) ==
      if MatchesAnyKeyword(text, PoetryWords) && !Contains(text, "역사") && !Contains(text, "시대") then Poetry else Other;
    assert FirstFiringFrom(rules, WholeMatch, text, 7) ==
      if MatchesAnyKeyword(text, HumanitiesWords) then Humanities else FirstFiringFrom(rules, WholeMatch, text, 8);
    assert FirstFiringFrom(rules, WholeMatch, text, 6) ==
      if MatchesAnyKeyword(text, ScienceWords) then Science else FirstFiringFrom(rules, WholeMatch, text, 7);
    assert FirstFiringFrom(rules, WholeMatch, text, 5) ==
      if MatchesAnyKeyword(text, HistoryWords) then History else FirstFiringFrom(rules, WholeMatch, text, 6);
    assert FirstFiringFrom(rules, WholeMatch, text, 4) ==
      if MatchesAnyKeyword(text, ComputingWords) then Computing else FirstFiringFrom(rules, WholeMatch, text, 5);
    assert FirstFiringFrom(rules, WholeMatch, text, 3) ==
      if MatchesAnyKeyword(text, EconomyWords) then Economy else FirstFiringFrom(rules, WholeMatch, text, 4);
    assert FirstFiringFrom(rules, WholeMatch, text, 2) ==
      if MatchesAnyKeyword(text, SelfHelpWords) then SelfHelp else FirstFiringFrom(rules, WholeMatch, text, 3);
    assert FirstFiringFrom(rules, WholeMatch, text, 1) ==
      if MatchesAnyKeyword(text, EssayWords) then Essay else FirstFiringFrom(rules, WholeMatch, text, 2);
    assert FirstFiringFrom(rules, WholeMatch, text, 0) ==
      if MatchesAnyKeyword(text, NovelWords) then Novel else FirstFiringFrom(rules, WholeMatch, text, 1);
  }

  // ---------------------------------------------------------------------
  // mapCategoryToGenre
  // ---------------------------------------------------------------------

  const CategoryNovelWords := ["소설", "문학"]
  const CategoryEssayWords := ["에세이", "수필"]
  const CategoryPoetryWords := ["시"]
  const CategorySelfHelpWords := ["자기계발", "자기관리", "성공", "동기부여", "자기개발"]
  const CategoryEconomyWords := ["경제", "경영", "재테크", "투자", "마케팅", "비즈니스"]
  const CategoryHumanitiesWords := ["인문", "철학", "심리", "사회", "교양"]
  const CategoryHistoryWords := ["역사", "문화"]
  const CategoryScienceWords := ["과학", "수학", "물리", "화학", "생물", "자연"]
  const CategoryComputingWords := ["컴퓨터", "프로그래밍", "it", "개발", "코딩", "웹", "앱", "소프트웨어"]

  /** The text rules of `mapCategoryToGenre`, in the order it tries them. */
  const CategoryRules := [
    Rule(Novel, CategoryNovelWords, []),
    Rule(Essay, CategoryEssayWords, []),
    Rule(Poetry, CategoryPoetryWords, PoetryBlockers),
    Rule(SelfHelp, CategorySelfHelpWords, []),
    Rule(Economy, CategoryEconomyWords, []),
    Rule(Humanities, CategoryHumanitiesWords, []),
    Rule(History, CategoryHistoryWords, []),
    Rule(Science, CategoryScienceWords, []),
    Rule(Computing, CategoryComputingWords, [])]

  /** The text-based half of `mapCategoryToGenre`, on the lowered category. */
  function CategoryKeywordGenre(lower: string): (r: string)
    ensures IsGenre(r)
    ensures ContainsAny(lower, CategoryNovelWords) ==> r == Novel
    ensures r == Poetry ==> !Contains(lower, "역사") && !Contains(lower, "시대")
    ensures (Contains(lower, "시") && !Contains(lower, "역사") && !Contains(lower, "시대") &&
             !ContainsAny(lower, CategoryNovelWords) && !ContainsAny(lower, CategoryEssayWords)) ==> r == Poetry
  {
    if ContainsAny(lower, CategoryNovelWords) then Novel
    else if ContainsAny(lower, CategoryEssayWords) then Essay
    else if Contains(lower, "시") && !Contains(lower, "역사") && !Contains(lower, "시대") then Poetry
    else if ContainsAny(lower, CategorySelfHelpWords) then SelfHelp
    else if ContainsAny(lower, CategoryEconomyWords) then Economy
    else if ContainsAny(lower, CategoryHumanitiesWords) then Humanities
    else if ContainsAny(lower, CategoryHistoryWords) then History
    else if ContainsAny(lower, CategoryScienceWords) then Science
    else if ContainsAny(lower, CategoryComputingWords) then Computing
    else Other
  }

  /** The text half returns the label of the first rule of `CategoryRules`
      that fires, and "기타" when none does. */
  lemma CategoryKeywordGenreIsFirstMatch(lower: string)
    ensures CategoryKeywordGenre(lower) ==
      FirstFiring(CategoryRules, Substring, lower)
  {
    var rules := CategoryRules;
    NoBlockers(lower);
    BlockersAre(lower);
    assert ContainsAny(lower, CategoryPoetryWords) <==> Contains(lower, "시") by {
      if Contains(lower, "시") {
        assert CategoryPoetryWords[0] == "시";
      }
    }
    assert FirstFiringFrom(rules, Substring, lower, 9) == Other;
    assert FirstFiringFrom(rules, Substring, lower, 8) ==
      if ContainsAny(lower, CategoryComputingWords) then Computing else Other;
    assert FirstFiringFrom(rules, Substring, lower, 7) ==
      if ContainsAny(lower, CategoryScienceWords) then Science else FirstFiringFrom(rules, Substring, lower, 8);
    assert FirstFiringFrom(rules, Substring, lower, 6) ==
      if ContainsAny(lower, CategoryHistoryWords) then History else FirstFiringFrom(rules, Substring, lower, 7);
    assert FirstFiringFrom(rules, Substring, lower, 5) ==
      if ContainsAny(lower, CategoryHumanitiesWords) then Humanities else FirstFiringFrom(rules, Substring, lower, 6);
    assert FirstFiringFrom(rules, Substring, lower, 4) ==
      if ContainsAny(lower, CategoryEconomyWords) then Economy else FirstFiringFrom(rules, Substring, lower, 5);
    assert FirstFiringFrom(rules, Substring, lower, 3) ==
      if ContainsAny(lower, CategorySelfHelpWords) then SelfHelp else FirstFiringFrom(rules, Substring, lower, 4);
    assert FirstFiringFrom(rules, Substring, lower, 2) ==
      if Contains(lower, "시") && !Contains(lower, "역사") && !Contains(lower, "시대") then Poetry
      else FirstFiringFrom(rules, Substring, lower, 3);
    assert FirstFiringFrom(rules, Substring, lower, 1) ==
      if ContainsAny(lower, CategoryEssayWords) then Essay else FirstFiringFrom(rules, Substring, lower, 2);
    assert FirstFiringFrom(rules, Substring, lower, 0) ==
      if ContainsAny(lower, CategoryNovelWords) then Novel else FirstFiringFrom(rules, Substring, lower, 1);
  }

  /** The numeric half of `mapCategoryToGenre`: a category that starts with
      digits is read as a Korean Decimal Classification number by its first
      three characters. None where the code falls through to the text rules. */
  function KdcGenre(category: string): (r: Option<string>)
    ensures !StartsWithDigits(category) ==> r == None
    ensures StartsWithDigits(category) ==>
      (category[0] == '8' ==> r == Some(Novel)) &&
      (category[0] == '1' ==> r == Some(Humanities)) &&
      (StartsWith(category, "32") ==> r == Some(Economy)) &&
      (category[0] == '3' && !StartsWith(category, "32") ==> r == Some(Humanities)) &&
      (category[0] == '4' ==> r == Some(Science)) &&
      (category[0] == '5' ==> r == Some(Computing)) &&
      (category[0] == '9' ==> r == Some(History)) &&
      (category[0] in "0267" ==> r == None)
  {
    if StartsWithDigits(category) then
      var kdcCode := category[..if |category| < 3 then |category| else 3];
      assert kdcCode[..1] == [category[0]];
      assert |category| >= 2 ==> kdcCode[..2] == category[..2];
      if StartsWith(kdcCode, "8") then
        if StartsWith(kdcCode, "81") then Some(Novel)
        else if StartsWith(kdcCode, "84") then Some(Novel)
        else Some(Novel)
      else if StartsWith(kdcCode, "1") then Some(Humanities)
      else if StartsWith(kdcCode, "3") then
        if StartsWith(kdcCode, "32") then Some(Economy) else Some(Humanities)
      else if StartsWith(kdcCode, "4") then Some(Science)
      else if StartsWith(kdcCode, "5") then Some(Computing)
      else if StartsWith(kdcCode, "9") then Some(History)
      else None
    else None
  }

  /** `mapCategoryToGenre`: null or empty gives "기타"; a classification number
      is mapped by its main class; anything else goes to the text rules. */
  function MapCategoryToGenre(category: Option<string>): (r: string)
    ensures IsGenre(r)
    ensures IsNullOrEmpty(category) ==> r == Other
    ensures !IsNullOrEmpty(category) && KdcGenre(category.value).Some? ==> r == KdcGenre(category.value).value
    ensures !IsNullOrEmpty(category) && KdcGenre(category.value).None? ==>
      r == CategoryKeywordGenre(ToLower(category.value))
  {
    if IsNullOrEmpty(category) then Other
    else
      var lowerCategory := ToLower(category.value);
      match KdcGenre(category.value)
      case Some(g) => g
      case None => CategoryKeywordGenre(lowerCategory)
  }

  // ---------------------------------------------------------------------
  // parseResponse
  // ---------------------------------------------------------------------

  predicate AllStrings(vs: seq<Json>)
  {
    forall j :: 0 <= j < |vs| ==> vs[j].JStr?
  }

  function Strings(vs: seq<Json>): (r: seq<string>)
    requires AllStrings(vs)
    ensures |r| == |vs| && forall j :: 0 <= j < |vs| ==> r[j] == vs[j].s
  {
    seq(|vs|, j requires 0 <= j < |vs| => vs[j].s)
  }

  /** `authors` is a non-empty array with an entry that is not a string, so
      `getString` throws on it. */
  predicate AuthorsUnreadable(o: Object)
  {
    var authors := OptArray(o, "authors");
    authors.Some? && |authors.value| > 0 && !AllStrings(authors.value)
  }

  /** One entry of `documents` read into a search hit; None where reading it
      throws: the entry is not an object, an author is not a string, the
      `isbn` is all spaces, or a non-empty `datetime` is shorter than ten
      characters. */
  function ParseDocument(doc: Json): (r: Option<BookApiDto>)
    ensures r.Some? ==> doc.JObj?
    ensures doc.JObj? ==>
      (r.Some? <==>
        !AuthorsUnreadable(doc.fields) &&
        FirstToken(OptString(doc.fields, "isbn", "")).Some? &&
        !(0 < |OptString(doc.fields, "datetime", "")| < 10))
  {
    match doc
    case JObj(o, _) =>
      var authors := OptArray(o, "authors");
      var isbn := FirstToken(OptString(o, "isbn", ""));
      var datetime := OptString(o, "datetime", "");
      if AuthorsUnreadable(o) then None
      else if isbn.None? then None
      else if datetime != "" && |datetime| < 10 then None
      else
        var title := OptString(o, "title", "");
        var thumbnail := OptString(o, "thumbnail", "");
        var contents := OptString(o, "contents", "");
        Some(BookApiDto(
          title := Some(title),
          author := if authors.Some? && |authors.value| > 0 then Some(Join(Strings(authors.value), ", ")) else None,
          publisher := Some(OptString(o, "publisher", "")),
          isbn := isbn,
          coverUrl := if thumbnail == "" then None else Some(thumbnail),
          publishDate := if datetime == "" then None else Some(datetime[..10]),
          page := Some(OptString(o, "price", "")),
          subject := Some(InferGenreFromTitleAndContent(title, contents)),
          description := if contents == "" then None else Some(Abbreviate(contents, 200))))
    case _ => None
  }

  /** The per-field rules of a document that was read. */
  lemma ParsedDocumentFields(doc: Json)
    requires ParseDocument(doc).Some?
    ensures var o := doc.fields; var b := ParseDocument(doc).value;
      var rawIsbn := OptString(o, "isbn", "");
      var datetime := OptString(o, "datetime", "");
      var contents := OptString(o, "contents", "");
      // the text before the first space of the raw isbn
      var authors := OptArray(o, "authors");
      // the authors joined with ", ", null for a missing or empty array
      (authors.Some? && |authors.value| > 0 ==>
         AllStrings(authors.value) && b.author == Some(Join(Strings(authors.value), ", "))) &&
      (authors.None? || |authors.value| == 0 ==> b.author.None?) &&
      // title, publisher and price as `optString(..., "")`
      b.title == Some(OptString(o, "title", "")) &&
      b.publisher == Some(OptString(o, "publisher", "")) &&
      b.page == Some(OptString(o, "price", "")) &&
      b.isbn.Some? && StartsWith(rawIsbn, b.isbn.value) && !Contains(b.isbn.value, " ") &&
      (|b.isbn.value| < |rawIsbn| ==> rawIsbn[|b.isbn.value|] == ' ') &&
      // the date part of the timestamp
      (datetime != "" ==> b.publishDate.Some? && |b.publishDate.value| == 10 && StartsWith(datetime, b.publishDate.value)) &&
      (datetime == "" ==> b.publishDate.None?) &&
      // the description: the first 200 characters of the contents (all of
      // them when there are fewer), then "..."
      (contents != "" ==> b.description.Some? &&
                          b.description.value == contents[..if |contents| < 200 then |contents| else 200] + "..." &&
                          |b.description.value| <= 203) &&
      (contents == "" ==> b.description.None?) &&
      // no cover for an empty thumbnail
      (b.coverUrl.None? <==> OptString(o, "thumbnail", "") == "") &&
      b.subject.Some? && IsGenre(b.subject.value)
  {
  }

  /** The entries of `documents`, or None where `new JSONObject(body)` or
      `getJSONArray("documents")` throws. */
  function Documents(body: Body): Option<seq<Json>>
  {
    match body
    case NullBody => None
    case Text(_, parsed) =>
      match parsed
      case None => None
      case Some(o) => GetArray(o, "documents")
  }

  /** What `parseResponse` returns: the documents read until the first one
      that throws; nothing when the body itself cannot be read. */
  function ParsedBooks(body: Body): (r: seq<BookApiDto>)
    ensures Documents(body).None? ==> r == []
  {
    match Documents(body)
    case None => []
    case Some(docs) => ParseWhile(ParseDocument, docs)
  }

  /** `parseResponse`. */
  method ParseResponse(body: Body) returns (books: seq<BookApiDto>)
    ensures books == ParsedBooks(body)
  {
    books := [];
    var documents := Documents(body);
    if documents.None? {
      return;
    }
    var docs := documents.value;
    books := ParseEach(ParseDocument, docs);
  }

  /** An exception on document `k` leaves exactly the hits for documents
      0..k-1. */
  lemma ParseResponseStopsAtFailure(body: Body, k: nat)
    requires Documents(body).Some? && k < |Documents(body).value|
    requires ParseDocument(Documents(body).value[k]).None?
    requires forall i :: 0 <= i < k ==> ParseDocument(Documents(body).value[i]).Some?
    ensures |ParsedBooks(body)| == k
    ensures forall i :: 0 <= i < k ==> ParsedBooks(body)[i] == ParseDocument(Documents(body).value[i]).value
  {
    ParseWhileStopsAt(ParseDocument, Documents(body).value, k);
  }

  /** `search`: the hits of the answer, none when the call fails. */
  method Search(reply: Reply<Body>) returns (books: seq<BookApiDto>)
    ensures reply.CallFailed? ==> books == []
    ensures reply.Answered? ==> books == ParsedBooks(reply.body)
  {
    match reply
    case CallFailed =>
      books := [];
    case Answered(body) =>
      books := ParseResponse(body);
  }

  /** `getBookByIsbn`: the first hit, or null when there is none or the call
      fails. */
  method GetBookByIsbn(reply: Reply<Body>) returns (book: Option<BookApiDto>)
    ensures reply.CallFailed? ==> book.None?
    ensures reply.Answered? ==>
      (book.None? <==> ParsedBooks(reply.body) == []) &&
      (book.Some? ==> book.value == ParsedBooks(reply.body)[0])
  {
    match reply
    case CallFailed =>
      book := None;
    case Answered(body) =>
      var books := ParseResponse(body);
      book := if |books| == 0 then None else Some(books[0]);
  }
}
