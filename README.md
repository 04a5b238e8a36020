# booklog, modelled in Dafny

Booklog is a Spring web application for keeping a reading log and a small
community board. This project models its service and controller core:

- **Book search providers.** These are the Kakao book search, the National
  Library of Korea's search and librarian recommendations, and the Aladin
  bestseller and new-release lists.
  - Each answer is read into search hits. The reading loop stops at the first
    entry that throws and keeps what it read before that entry.
  - The genre classifiers (title and content, or the category) try ordered
    keyword rules, and the first rule that fires wins.
  - The National Library search merges title hits with author hits, using the
    ISBN as the duplicate test.
  - The services that fetch more books than they show take a random sample:
    they shuffle in place, as `Collections.shuffle` does, and keep the first
    `count` books.
- **The AI recommendation service.** It chooses between a personalised
  prompt and a trend prompt. The personalised prompt is built from:
  - the genre tally;
  - the recently read books;
  - the high-rated books.

  It then reads the OpenAI answer: it strips the code fences and reads the
  `recommendations` array. The reading-pattern summary is modelled too.
- **The shelf search (`BookService.searchBooks`).** It returns the title,
  author and publisher hits, with duplicates removed.
- **The stores (`UserService`, `PostService`, `CommentService`).** Each is a
  class over a map from id to record, with an id counter.
  - `save` is an upsert. A record without an id gets the next free id.
  - Reading a post counts a view.
  - A user update either stores the changed fields or throws the
    wrong-password exception.
- **The controllers (`AuthController`, `MyPageController`, `PostController`,
  `CommentController`, `BookController`).**
  - A handler's answer is a `Web.Outcome`, one of three kinds: a rendered
    template, a redirect with an optional flash attribute, or an exception
    that escapes the handler.
  - Ownership checks that call methods on a null user or a null
    authentication are this third kind, a null dereference.

Java behaviour the core relies on is written out in `text.dfy`:
- `trim`, `isBlank`, `contains` and `startsWith`;
- the `.*(a|b).*` and `^\d+.*` regular expressions (neither matches across a
  line terminator);
- `Integer.parseInt` (ASCII digits) and `String.valueOf`;
- 32-bit `int` wrap-around.

JSON and XML documents are already-parsed trees (`json.dfy`, `xml.dfy`). An
HTTP exchange is a `Reply`: either the call failed or an answer came back.

Two behaviours of the code are easy to miss:
- An entry of a provider's answer that cannot be read aborts the rest of the
  reading loop. The entries already read are kept; the bad entry is not
  skipped.
- In the National Library search every hit has an ISBN, the empty string when
  the entry has no `EA_ISBN` (`SearchHitsCarryIsbn`). So the `getIsbn() != null`
  test of the merge never exempts a hit, and two author hits without an ISBN
  count as the same book (`EmptyIsbnsCollide`).

## Model

| member | source | states |
|---|---|---|
| Sequences.ParseEach | booklog/src/main/java/com/example/booklog/service/KakaoBookApiService.java:103-159 | the reading loop of every `parseResponse`: it returns exactly the entries parsed before the first one that throws, each the parse of its entry, because the `catch` is outside the loop |
| Sequences.ParseWhileParses | booklog/src/main/java/com/example/booklog/service/KakaoBookApiService.java:103-159 | result `i` is the parse of entry `i`, and when fewer results than entries come back, the first entry not read is one that throws |
| Sequences.Distinct | booklog/src/main/java/com/example/booklog/service/BookService.java:71 | `distinct()` keeps every item of the input and nothing else, each once |
| Sequences.DistinctKeepsFirstOccurrenceOrder | booklog/src/main/java/com/example/booklog/service/BookService.java:71 | `distinct()` on an ordered stream keeps the items in the order of their first occurrence |
| Sequences.SortDesc | booklog/src/main/java/com/example/booklog/service/AiRecommendationService.java:98-100 | the sort by rating, highest first, is a permutation, sorted by the key, and stable (items with equal keys keep their order) |
| Sequences.TakeOfSortDesc | booklog/src/main/java/com/example/booklog/service/AiRecommendationService.java:97-101 | `sorted(...).limit(n)` gives at most `n` items of the input, highest key first, with no item left out ranked above one taken |
| Shuffle.FetchCount | booklog/src/main/java/com/example/booklog/service/NationalLibraryApiService.java:261 | the rows asked for are `max(count*10, 50)` computed in 32-bit `int`, as both the National Library and Aladin services do: always within `int` and at least 50, and exactly the unwrapped maximum when `count*10` does not overflow |
| Shuffle.Selection | booklog/src/main/java/com/example/booklog/service/NationalLibraryApiService.java:283-288 | selecting from the parsed list throws (None) exactly when there are more books than a negative `count` (`subList(0, count)` with `count < 0`) |
| Shuffle.SelectionDrawsFromList | booklog/src/main/java/com/example/booklog/service/AladinApiService.java:73-79 | with more than `count` books the selection has exactly `count`, each at most as often as in the input (no repetition); otherwise it is the input unchanged |
| Shuffle.Select | booklog/src/main/java/com/example/booklog/service/NationalLibraryApiService.java:283-285 | the in-place `Collections.shuffle` of an array copy followed by `subList(0, count)` returns exactly `Selection` |
| Shuffle.ShuffleInPlace | booklog/src/main/java/com/example/booklog/service/AladinApiService.java:75 | the array is left holding `Shuffled(old)`, a permutation of its old contents (Fisher-Yates from the last index down, as `Collections.shuffle` does) |
| KakaoBookApiService.InferGenreFromTitleAndContent | booklog/src/main/java/com/example/booklog/service/KakaoBookApiService.java:167-217 | the guess is always one of the genre labels; "시" only when the lowered text contains neither "역사" nor "시대"; text with a line terminator matches no `.*(...).*` rule and gives "기타" |
| KakaoBookApiService.InferGenreIsFirstMatch | booklog/src/main/java/com/example/booklog/service/KakaoBookApiService.java:167-217 | the guess is the label of the first rule that matches, in the order fiction, essay, self-help, economy, IT, history, science, humanities, poetry, and "기타" when none does |
| KakaoBookApiService.CategoryKeywordGenre | booklog/src/main/java/com/example/booklog/service/KakaoBookApiService.java:282-338 | keyword fallback: always a label; a novel/literature word wins over every later rule; "시" only without "역사"/"시대", and it is chosen when no novel or essay word occurs |
| KakaoBookApiService.CategoryKeywordGenreIsFirstMatch | booklog/src/main/java/com/example/booklog/service/KakaoBookApiService.java:282-338 | the keyword fallback returns the label of the first matching substring rule in source order, "기타" when none matches |
| KakaoBookApiService.KdcGenre | booklog/src/main/java/com/example/booklog/service/KakaoBookApiService.java:233-278 | a numeric category maps by its leading KDC digit: 8 novel, 1 humanities, prefix 32 economy, other 3 humanities, 4 science, 5 IT, 9 history; 0/2/6/7 fall through; a non-numeric one always falls through |
| KakaoBookApiService.MapCategoryToGenre | booklog/src/main/java/com/example/booklog/service/KakaoBookApiService.java:225-339 | null or empty gives "기타"; otherwise the KDC label when there is one, else the keyword fallback on the lowered text; the result is always a genre label |
| KakaoBookApiService.ParseDocument | booklog/src/main/java/com/example/booklog/service/KakaoBookApiService.java:103-153 | only an object can be read, and an object is read exactly when `authors` is not a non-empty array holding a non-string, its `isbn` has a first token, and its `datetime` is empty or at least 10 characters; otherwise the entry throws and the loop aborts |
| KakaoBookApiService.ParsedDocumentFields | booklog/src/main/java/com/example/booklog/service/KakaoBookApiService.java:109-150 | a parsed hit: the author is the `authors` strings joined with ", ", null when the array is missing or empty; title, publisher and page are `optString(..., "")` of `title`, `publisher` and `price`; the isbn is the text before the first space; the date is the first 10 characters of a non-empty `datetime`; the description is exactly the first 200 characters of `contents` (all of it when shorter) followed by "..."; an empty thumbnail leaves the cover null; the subject is a genre label |
| KakaoBookApiService.ParsedBooks | booklog/src/main/java/com/example/booklog/service/KakaoBookApiService.java:94-161 | no `documents` array gives no hits |
| KakaoBookApiService.ParseResponse | booklog/src/main/java/com/example/booklog/service/KakaoBookApiService.java:94-161 | the loop returns exactly the documents parsed before the first one that throws |
| KakaoBookApiService.ParseResponseStopsAtFailure | booklog/src/main/java/com/example/booklog/service/KakaoBookApiService.java:103-159 | an exception on document k leaves exactly hits 0..k-1 |
| KakaoBookApiService.Search | booklog/src/main/java/com/example/booklog/service/KakaoBookApiService.java:29-65 | the hits of the answer; none when the call fails |
| KakaoBookApiService.GetBookByIsbn | booklog/src/main/java/com/example/booklog/service/KakaoBookApiService.java:70-89 | the first hit, or null when there is none or the call fails |
| NationalLibraryApiService.ParseDoc | booklog/src/main/java/com/example/booklog/service/NationalLibraryApiService.java:222-240 | a doc that is an object always parses; each field is its `optString(..., "")`; an empty `TITLE_URL` gives a null cover, otherwise the cover is that URL |
| NationalLibraryApiService.ParsedBooks | booklog/src/main/java/com/example/booklog/service/NationalLibraryApiService.java:204-249 | a null or whitespace-only body, or one without `docs`, gives an empty list; never more hits than docs |
| NationalLibraryApiService.ParseResponse | booklog/src/main/java/com/example/booklog/service/NationalLibraryApiService.java:204-249 | the loop returns exactly the docs parsed before the first one that throws |
| NationalLibraryApiService.ParsedBooksOfObjects | booklog/src/main/java/com/example/booklog/service/NationalLibraryApiService.java:218-241 | when every doc is an object, every doc becomes a hit |
| NationalLibraryApiService.SearchResults | booklog/src/main/java/com/example/booklog/service/NationalLibraryApiService.java:56-85 | a failed call gives no hits |
| NationalLibraryApiService.SearchBy | booklog/src/main/java/com/example/booklog/service/NationalLibraryApiService.java:56-85 | `searchByTitle`/`searchByAuthor`/`searchByPublisher` return `SearchResults` of their answer |
| NationalLibraryApiService.IsbnAlreadyCollected | booklog/src/main/java/com/example/booklog/service/NationalLibraryApiService.java:159-160 | the scan answers true exactly when some collected hit has a non-null ISBN equal to the candidate's |
| NationalLibraryApiService.Search | booklog/src/main/java/com/example/booklog/service/NationalLibraryApiService.java:147-170 | the merge loop returns `MergeFrom(title hits, author hits)` |
| NationalLibraryApiService.MergeKeepsPrefix | booklog/src/main/java/com/example/booklog/service/NationalLibraryApiService.java:151-164 | the title hits come first, unchanged and in order (not deduplicated); the merge adds at most one item per author hit |
| NationalLibraryApiService.MergeAddsOnlyNewIsbns | booklog/src/main/java/com/example/booklog/service/NationalLibraryApiService.java:158-164 | everything after the title hits is an author hit whose ISBN no earlier record (with non-null ISBN) carries; every author hit is either added or ISBN-matched by the result |
| NationalLibraryApiService.EmptyIsbnsCollide | booklog/src/main/java/com/example/booklog/service/NationalLibraryApiService.java:159-160 | two author hits with ISBN "" collide: only the first is kept |
| NationalLibraryApiService.NullIsbnAlwaysAdded | booklog/src/main/java/com/example/booklog/service/NationalLibraryApiService.java:159-163 | the merge's `getIsbn() != null` test: a hit with a null ISBN is never matched and is always appended (no search hit has one, see `SearchHitsCarryIsbn`) |
| NationalLibraryApiService.MergeAddsSubsequence | booklog/src/main/java/com/example/booklog/service/NationalLibraryApiService.java:158-164 | what follows the title hits is a subsequence of the author hits: author hits in their own order, some left out |
| NationalLibraryApiService.MergeFromSnoc | booklog/src/main/java/com/example/booklog/service/NationalLibraryApiService.java:158-164 | merging one more author hit appends it exactly when no collected item carries its (non-null) ISBN, and otherwise leaves the list as it was |
| NationalLibraryApiService.MergeStep | booklog/src/main/java/com/example/booklog/service/NationalLibraryApiService.java:158-164 | author hit `j` is added exactly when its ISBN is not taken in what the first `j` author hits left collected |
| NationalLibraryApiService.SearchHitsCarryIsbn | booklog/src/main/java/com/example/booklog/service/NationalLibraryApiService.java:222-240 | every hit a search returns has a non-null ISBN (`optString("EA_ISBN", "")`) |
| NationalLibraryApiService.GetBookByIsbn | booklog/src/main/java/com/example/booklog/service/NationalLibraryApiService.java:175-199 | the first hit of the lookup, or null when there is none (a failed call included) |
| NationalLibraryApiService.TagValue | booklog/src/main/java/com/example/booklog/service/NationalLibraryApiService.java:427-438 | a missing tag or a whitespace-only text gives ""; otherwise the first match's text, untrimmed |
| NationalLibraryApiService.PublishYear | booklog/src/main/java/com/example/booklog/service/NationalLibraryApiService.java:398-405 | an empty year stays null; an `int` that parses is kept; any other non-empty text becomes 0 |
| NationalLibraryApiService.ParseItemFields | booklog/src/main/java/com/example/booklog/service/NationalLibraryApiService.java:376-412 | each recommendation field is the `getTagValue` of its tag; an empty file path gives a null cover; the year follows `PublishYear` |
| NationalLibraryApiService.Recommendations | booklog/src/main/java/com/example/booklog/service/NationalLibraryApiService.java:355-422 | a null body or an unreadable document gives nothing; otherwise one recommendation per `item`, in order |
| NationalLibraryApiService.ParseRecommendXmlResponse | booklog/src/main/java/com/example/booklog/service/NationalLibraryApiService.java:355-422 | the loop returns exactly `Recommendations` |
| NationalLibraryApiService.GetLatestRecommendedBooks | booklog/src/main/java/com/example/booklog/service/NationalLibraryApiService.java:258-295 | asks for `FetchCount(count)` rows and returns `LatestRecommended` of that answer |
| NationalLibraryApiService.LatestRecommendedDrawsFromAnswer | booklog/src/main/java/com/example/booklog/service/NationalLibraryApiService.java:283-288 | more than `count` parsed: exactly `count`, drawn without repetition; otherwise all of them; a negative `count` gives nothing |
| NationalLibraryApiService.ListRecommended | booklog/src/main/java/com/example/booklog/service/NationalLibraryApiService.java:300-350 | the monthly and by-category lists are the parsed answer, nothing when the call fails |
| AladinApiService.ParseItem | booklog/src/main/java/com/example/booklog/service/AladinApiService.java:103-141 | an entry parses exactly when it is an object |
| AladinApiService.ParseItemFields | booklog/src/main/java/com/example/booklog/service/AladinApiService.java:111-139 | string fields are `optString(..., "")`, prices `optInt(..., 0)`: 0 when missing, always within `int` |
| Json.OptIntRefusesLeadingZero | booklog/src/main/java/com/example/booklog/service/AladinApiService.java:135-136 | `optInt` of the string "0123" gives the default, while "123" gives 123 |
| AladinApiService.ParsedBooks | booklog/src/main/java/com/example/booklog/service/AladinApiService.java:91-151 | a body without `item` (or that is no object) gives nothing |
| AladinApiService.ParseResponse | booklog/src/main/java/com/example/booklog/service/AladinApiService.java:91-151 | the loop returns exactly the entries parsed before the first one that throws |
| AladinApiService.GetBookList | booklog/src/main/java/com/example/booklog/service/AladinApiService.java:43-86 | asks for `FetchCount(count)` items of `queryType`; a failed, null or blank answer gives nothing; otherwise the selection seeded by the day |
| AladinApiService.GetBestsellers | booklog/src/main/java/com/example/booklog/service/AladinApiService.java:29-31 | `getBookList("Bestseller", count)` |
| AladinApiService.GetNewBooks | booklog/src/main/java/com/example/booklog/service/AladinApiService.java:36-38 | `getBookList("ItemNewAll", count)` |
| AladinApiService.BookListDrawsFromAnswer | booklog/src/main/java/com/example/booklog/service/AladinApiService.java:73-79 | more than `count` parsed: exactly `count` books drawn without repetition, the same for the same day and input; otherwise the parsed list unchanged |
| AiRecommendationService.RecentBooksAreFirstRead | booklog/src/main/java/com/example/booklog/service/AiRecommendationService.java:91-94 | at most 5 books, all "READ", a subsequence of the user's books in their order; exactly 5 when there are at least 5 read books, and all the read books otherwise |
| AiRecommendationService.HighRatedBooksAreBest | booklog/src/main/java/com/example/booklog/service/AiRecommendationService.java:97-101 | at most 5 books, all rated ≥ 4, ratings non-increasing, and none left out rated above one kept |
| AiRecommendationService.HighRatedSortIsStable | booklog/src/main/java/com/example/booklog/service/AiRecommendationService.java:98-100 | the sort keeps the original order among books of equal rating, and the list is its prefix |
| AiRecommendationService.GenreCountsAreCounts | booklog/src/main/java/com/example/booklog/service/AiRecommendationService.java:82-84 | the tally has one entry per non-empty genre, counting its books; "" is never counted; the counts sum to the number of books with a genre |
| AiRecommendationService.TopGenresAreMostCounted | booklog/src/main/java/com/example/booklog/service/AiRecommendationService.java:110-115 | at most 3 entries of the tally, by non-increasing count, none left out counted higher than one kept |
| AiRecommendationService.TopGenresEmptyIff | booklog/src/main/java/com/example/booklog/service/AiRecommendationService.java:109-116 | the preferred-genre line is empty exactly when no book has a genre |
| AiRecommendationService.ChoosePrompt | booklog/src/main/java/com/example/booklog/service/AiRecommendationService.java:54-62 | the personalised prompt exactly for ≥ 3 books, built from the total, top genres, recent and high-rated selections |
| AiRecommendationService.StripFencesOfPlain | booklog/src/main/java/com/example/booklog/service/AiRecommendationService.java:244-254 | content without fences is just trimmed |
| AiRecommendationService.StripFencesOfFenced | booklog/src/main/java/com/example/booklog/service/AiRecommendationService.java:244-254 | a "```json" or "```" fenced block gives back the trimmed JSON inside |
| AiRecommendationService.CleanContent | booklog/src/main/java/com/example/booklog/service/AiRecommendationService.java:244-254 | the step-by-step reassignments compute `StripFences` |
| AiRecommendationService.ParseRecommendation | booklog/src/main/java/com/example/booklog/service/AiRecommendationService.java:261-269 | an entry parses exactly when it is an object |
| AiRecommendationService.RecommendationFields | booklog/src/main/java/com/example/booklog/service/AiRecommendationService.java:264-269 | each field is `optString(..., "")`; a missing one is "" |
| AiRecommendationService.AnswerRecommendations | booklog/src/main/java/com/example/booklog/service/AiRecommendationService.java:232-282 | no readable `recommendations` gives nothing; never more books than entries |
| AiRecommendationService.NoChoicesNoRecommendations | booklog/src/main/java/com/example/booklog/service/AiRecommendationService.java:239 | an empty `choices` array gives nothing |
| AiRecommendationService.ReadEntries | booklog/src/main/java/com/example/booklog/service/AiRecommendationService.java:236-258 | the path choices[0].message.content → cleanup → `recommendations` gives `RecommendationEntries` |
| AiRecommendationService.ParseOpenAiResponse | booklog/src/main/java/com/example/booklog/service/AiRecommendationService.java:232-282 | returns `AnswerRecommendations` of the answer |
| AiRecommendationService.GetRecommendations | booklog/src/main/java/com/example/booklog/service/AiRecommendationService.java:42-75 | a null or blank key returns nothing and sends nothing; otherwise the prompt `ChoosePrompt` gives is sent and the answer read |
| AiRecommendationService.AnalyzeUserReadingPattern | booklog/src/main/java/com/example/booklog/service/AiRecommendationService.java:287-309 | total, `canPersonalize` iff ≥ 3 books, the genre tally, and the average: rated sum over rated count, 0 when nothing is rated |
| AiRecommendationService.CanPersonalizeMatchesPrompt | booklog/src/main/java/com/example/booklog/service/AiRecommendationService.java:292 | `canPersonalize` holds exactly when the personalised prompt would be used |
| BookService.SearchBooks | booklog/src/main/java/com/example/booklog/service/BookService.java:59-72 | a null or blank keyword returns all books; otherwise the distinct concatenation of the title, author and publisher hits |
| BookService.SearchFindsEachMatchOnce | booklog/src/main/java/com/example/booklog/service/BookService.java:65-71 | no duplicates; a book is found iff one of the three queries returned it; books keep their first-occurrence order over title ++ author ++ publisher |
| UserService.Registered | booklog/src/main/java/com/example/booklog/service/UserService.java:20-26 | role "ROLE_USER", password `encode(raw)`, everything else as submitted |
| UserService.MissingUserUpdateError | booklog/src/main/java/com/example/booklog/service/UserService.java:44-66 | `updateUser(null, …)` throws an `IllegalArgumentException`, with the wrong-password message, exactly when name and email are blank, the new password is not and the current password is null; every other case throws another exception |
| UserService.Updated | booklog/src/main/java/com/example/booklog/service/UserService.java:44-66 | name and email replaced only by non-blank values; a null/blank new password keeps the password; a non-blank one needs a non-null matching current password and stores `encode(new)`, else the wrong-password exception; id, username and role never change |
| UserService.UpdateWithoutPasswordIsIdempotent | booklog/src/main/java/com/example/booklog/service/UserService.java:46-56 | resubmitting the same name and email without a new password changes nothing more |
| UserService.UserService.Save | booklog/src/main/java/com/example/booklog/service/UserService.java:25 | `save` stores the user under its id or a fresh one and changes nothing else |
| UserService.UserService.Register | booklog/src/main/java/com/example/booklog/service/UserService.java:20-26 | stores `Registered(user)` under its id or a fresh one; nothing else changes |
| UserService.UserService.FindByUsername | booklog/src/main/java/com/example/booklog/service/UserService.java:29-31 | null exactly when no stored user has the name; otherwise a stored user with that name |
| UserService.UserService.IsUsernameExists | booklog/src/main/java/com/example/booklog/service/UserService.java:34-36 | true exactly when a stored user has that username |
| UserService.UserService.IsEmailExists | booklog/src/main/java/com/example/booklog/service/UserService.java:39-41 | true exactly when a stored user has that email |
| UserService.UserService.UpdateUser | booklog/src/main/java/com/example/booklog/service/UserService.java:44-66 | stores `Updated(...)`; on the wrong-password exception the store is unchanged (the save is never reached) |
| UserService.UserService.DeleteUser | booklog/src/main/java/com/example/booklog/service/UserService.java:69-71 | removes the user's id and nothing else |
| PostService.Viewed | booklog/src/main/java/com/example/booklog/service/PostService.java:40 | one more view, nothing else changed |
| PostService.PostService.Save | booklog/src/main/java/com/example/booklog/service/PostService.java:46 | `postRepository.save` stores the post under its id, or a fresh id when it has none, and changes nothing else |
| PostService.PostService.GetPostById | booklog/src/main/java/com/example/booklog/service/PostService.java:35-42 | an existing id is stored back with viewCount + 1, other posts unchanged; a missing id throws and the store is unchanged |
| PostService.PostService.SavePost | booklog/src/main/java/com/example/booklog/service/PostService.java:45-47 | the post is stored at its id (a fresh id when it has none) |
| PostService.PostService.DeletePost | booklog/src/main/java/com/example/booklog/service/PostService.java:50-52 | removes that id and nothing else |
| CommentService.CommentService.SaveComment | booklog/src/main/java/com/example/booklog/service/CommentService.java:30-32 | the comment is stored at its id (a fresh id when it has none) |
| CommentService.CommentService.GetCommentById | booklog/src/main/java/com/example/booklog/service/CommentService.java:35-38 | the stored comment, or the not-found exception |
| CommentService.CommentService.DeleteComment | booklog/src/main/java/com/example/booklog/service/CommentService.java:41-43 | removes that id and nothing else |
| Web.IsOwner | booklog/src/main/java/com/example/booklog/controller/PostController.java:105 | the owner check throws when the owner or the authentication is null, and holds exactly when both names are equal |
| AuthController.LoginForm | booklog/src/main/java/com/example/booklog/controller/AuthController.java:19-29 | the error and logout parameters each set their own message, independently |
| AuthController.LoginMessagesAreIndependent | booklog/src/main/java/com/example/booklog/controller/AuthController.java:22-27 | changing one parameter never changes the other message |
| AuthController.Register | booklog/src/main/java/com/example/booklog/controller/AuthController.java:40-55 | a taken username is reported first, then a taken email, and neither registers; with both free the user is registered once and the answer redirects to "/auth/login?registered=true" |
| MyPageController.StatusName | booklog/src/main/java/com/example/booklog/controller/MyPageController.java:52-70 | READ → "읽은 책", READING → "읽고 있는 책", WANT_TO_READ → "읽고 싶은 책", anything else, null or empty included → "전체" (each in both directions) |
| MyPageController.ListedBooks | booklog/src/main/java/com/example/booklog/controller/MyPageController.java:52-70 | no status lists all the user's books; a status lists exactly those in that state, in order |
| MyPageController.AverageRating | booklog/src/main/java/com/example/booklog/controller/MyPageController.java:72-85 | absent exactly when no listed book is rated; otherwise times the rated count it equals the `int` sum of the ratings |
| MyPageController.UnratedIffNoRating | booklog/src/main/java/com/example/booklog/controller/MyPageController.java:74-79 | the rated count is zero exactly when no book has a rating |
| MyPageController.MyBooks | booklog/src/main/java/com/example/booklog/controller/MyPageController.java:42-95 | the page shows the listed books, the label, their average and the selected status |
| MyPageController.UpdateUser | booklog/src/main/java/com/example/booklog/controller/MyPageController.java:106-154 | a non-blank new password that differs from the confirmation redirects to /mypage/edit without calling `updateUser`; a wrong current password shows that message and stores nothing; success stores the update and redirects to /mypage; for an unknown username nothing is stored and the flash is the wrong-password message when `MissingUserUpdateError` gives it, the generic failure message otherwise |
| MyPageController.DeleteUser | booklog/src/main/java/com/example/booklog/controller/MyPageController.java:157-176 | the account is removed and the answer redirects home; without one nothing changes and the error is shown |
| PostController.ListQuery | booklog/src/main/java/com/example/booklog/controller/PostController.java:48-62 | the keyword is searched exactly when it is not blank and the category filters exactly when it is not empty, giving the four queries in the order of the source |
| PostController.NewPostForm | booklog/src/main/java/com/example/booklog/controller/PostController.java:77-85 | without a signed-in user the answer redirects to login; otherwise the form |
| PostController.NewAuthor | booklog/src/main/java/com/example/booklog/controller/PostController.java:93-97 | a new post's author is the signed-in user when `findByUsername` finds them |
| PostController.SavePost | booklog/src/main/java/com/example/booklog/controller/PostController.java:89-116 | a new post is saved with the current user and viewCount 0; a non-owner's edit saves nothing but the +1 view of `getPostById`; the owner's edit keeps the stored author and saves viewCount old + 1 |
| PostController.Detail | booklog/src/main/java/com/example/booklog/controller/PostController.java:120-136 | a detail view counts one view |
| PostController.EditForm | booklog/src/main/java/com/example/booklog/controller/PostController.java:140-154 | only the owner gets the form; either way the post gains a view |
| PostController.Delete | booklog/src/main/java/com/example/booklog/controller/PostController.java:158-172 | a non-owner removes nothing (the post keeps the counted view); the owner removes exactly that post |
| CommentController.PostTarget | booklog/src/main/java/com/example/booklog/controller/CommentController.java:50 | the redirect "/community/" + postId, from which the id reads back |
| CommentController.CreateComment | booklog/src/main/java/com/example/booklog/controller/CommentController.java:30-51 | unauthenticated: nothing saved and a redirect to login; otherwise the post gains a view and the comment saved carries exactly the content, the post and the current user; the answer goes back to the post |
| CommentController.DeleteComment | booklog/src/main/java/com/example/booklog/controller/CommentController.java:55-72 | a non-owner leaves the comment in place, the owner removes it; both go back to the post |
| BookController.SearchApiPage | booklog/src/main/java/com/example/booklog/controller/BookController.java:33-42 | the Kakao search is made, and its hits shown, exactly for a non-blank query |
| BookController.BookFromApi | booklog/src/main/java/com/example/booklog/controller/BookController.java:49-58 | a hit gives a book with its title, author and publisher and genre "소설", nothing else set; no hit gives an empty book |
| BookController.NewBookFromApi | booklog/src/main/java/com/example/booklog/controller/BookController.java:46-63 | the form book is `BookFromApi` of Kakao's first hit |
| BookController.SubjectGenre | booklog/src/main/java/com/example/booklog/controller/BookController.java:146-158 | "문학" → 소설 first, then "역사" → 역사, then "과학"/"기술" → 과학, then "철학"/"종교" → 인문, else 기타 (each in both directions) |
| BookController.BookFromRecommended | booklog/src/main/java/com/example/booklog/controller/BookController.java:137-159 | a null subject leaves the genre unset; no hit gives an empty book |
| BookController.NewBookFromRecommend | booklog/src/main/java/com/example/booklog/controller/BookController.java:133-164 | the form book is `BookFromRecommended` of the National Library's first hit |
| BookController.LatestRecommendedAtMost | booklog/src/main/java/com/example/booklog/controller/BookController.java:122 | a non-negative count bounds the latest recommendations |
| BookController.List | booklog/src/main/java/com/example/booklog/controller/BookController.java:116-129 | the shelf and `getLatestRecommendedBooks(5)`: at most 5 recommendations, from one request of 50 rows |


## Left out

- URL building, request headers, timeouts, logging and `System.out`: a provider's or OpenAI's answer is an input (`Reply`), and the model says which request would be made (`FetchCount`, `sent` in `GetRecommendations`).
- JSON and XML parsing itself (`org.json`, the DOM parser): documents are given as trees, and a body that does not parse is an input that carries no tree.
- `java.util.Random` and `LocalDate.now()`: the numbers a `Random` draws are a parameter (`Shuffle.Draw`), and the day number used as Aladin's seed is a parameter too. The model proves what holds for every sequence of draws.
- `getMonthlyRecommendedBooks` and `getRecommendedBooksByCategory`: the date range and category are placed into the request URL only, so only the parsing of the answer is modelled (`ListRecommended`).
- AiRecommendationService.AnalyzeUserReadingPattern: the average is an exact `real`, not a Java `double`.
- MyPageController.AverageRating: the average is an exact `real`, not a Java `double`.
- KakaoBookApiService.ParseDocument: lengths and cuts (`substring(0, 10)`, `substring(0, 200)`) count characters, where Java counts UTF-16 code units. The two differ only for characters outside the Basic Multilingual Plane, which a Java cut can split in half.
- KakaoBookApiService.ParsedDocumentFields: the 200-character description and the 10-character date count characters, not UTF-16 code units (see the line above).
- NationalLibraryApiService.PublishYear: `Integer.parseInt` is modelled for ASCII digits (`Text.ParseInt`). Java also accepts the decimal digits of other scripts, so a year written in fullwidth digits such as "２０２０" is 2020 in Java and 0 in the model.
- NationalLibraryApiService.ParseItemFields: the year follows `PublishYear`, so the same ASCII-digit restriction applies.
- Text.ParseInt: only ASCII digits are read (see `PublishYear` above).
- AladinApiService.ParseItemFields: `optInt` on a string is modelled for an optional '-' followed by ASCII digits, without a leading zero before another digit ("0123" and "-012" give the default, as in current org.json). org.json also reads decimal and exponent notation ("12.5" gives 12, "1e3" gives 1000), and after an ASCII first digit it accepts the decimal digits of other scripts ("1２" gives 12). The model gives the default 0 for all of those.
- The JSON text an array or an object carries (what `optString` returns for it) is given with the tree, not computed from it: org.json lays an object's keys out in its map's iteration order.
- AiRecommendationService.ChoosePrompt: the prompt's wording is not modelled. The prompt is its inputs: the total, the top genres, the recent books, the high-rated books and the count. The author tally that `buildPersonalizedPrompt` computes and never uses is left out.
- AiRecommendationService.TopGenresAreMostCounted: the order among genres with equal counts depends on `HashMap` iteration. The model's tally lists genres in order of first appearance counted from the last book (`GenreCounts` tallies `books[1..]` first and `Bump` appends a new genre at the end), the sort is stable over that order, and the lemma states only what holds for any tie order.
- `callOpenAiApi`'s own error handling and the HTTP call: either the call fails (no books) or its answer is read by `AnswerRecommendations`.
- `String.toLowerCase` is modelled for ASCII letters only; Hangul has no case.
- Spring Security, sessions, CSRF and the `SecurityContext` refresh after a profile change: the signed-in user is an `Option<string>` principal.
- The repository's derived queries (`findByTitleContaining`, `findByCategory…`, `findByPost…`, `getBooksByUser`): they are inputs to the handlers, given as functions or sequences.
- `getBooksByUserAndStatus`, which `myBooks` calls, is not defined in BookService.java. The model takes it to be the user's books filtered by reading state, in their order (`ListedBooks`).
- Ids and view counts are unbounded integers; `Long` overflow is not modelled.
- `save` is an upsert on a map keyed by id. JPA's merge of detached entities, optimistic locking and transactions are not modelled. Deleting a missing id removes nothing.
- PostController.Detail: the comment list, the comment count and other model attributes of the page are not modelled.
- PostController.list's query choice is modelled (`ListQuery`), but the lists the queries return are not.
- `registerForm`, `myPage`, `editPage`, `createBookForm`, `saveBook`, `viewBook`, `editBookForm`, `deleteBook` and BookController's `searchBooks` only render a template or delegate one call to a service, so they are not modelled.
- User.java, Post.java, Comment.java and Book.java are not part of this model. The entities are records in `entities.dfy`, and an author is the author's username. `Book` carries a reading `status`, because the controllers read one.
- BookService.SearchBooks: `distinct()` compares `Book` objects by identity, because `Book` has no `equals`. The model compares the records by value, id included. The two agree because the persistence context returns one object per row within a request.
