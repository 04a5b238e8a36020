/** MyPageController: the shelf page with its status label and average
    rating, editing the account, and leaving the site. */
module MyPageController {
  import opened Wrappers
  import opened Text
  import opened Sequences
  import opened Entities
  import opened Web
  import opened UserService

  const ReadLabel := "읽은 책"
  const ReadingLabel := "읽고 있는 책"
  const WantToReadLabel := "읽고 싶은 책"
  const AllLabel := "전체"

  const EditTarget := "/mypage/edit"
  const PasswordMismatchMessage := "새 비밀번호가 일치하지 않습니다."
  const UpdatedMessage := "정보가 성공적으로 수정되었습니다."
  const UpdateFailedMessage := "정보 수정 중 오류가 발생했습니다."
  const DeletedMessage := "회원 탈퇴가 완료되었습니다."
  const DeleteFailedMessage := "회원 탈퇴 중 오류가 발생했습니다."

  /** The `statusName` of `myBooks`: one label per known status, "전체" for
      no status and for any other one. */
  function StatusName(status: Option<string>): (r: string)
    ensures r == ReadLabel <==> status == Some("READ")
    ensures r == ReadingLabel <==> status == Some("READING")
    ensures r == WantToReadLabel <==> status == Some("WANT_TO_READ")
    ensures r == AllLabel <==> status !in {Some("READ"), Some("READING"), Some("WANT_TO_READ")}
  {
    if IsNullOrEmpty(status) then AllLabel
    else match status.value
      case "READ" => ReadLabel
      case "READING" => ReadingLabel
      case "WANT_TO_READ" => WantToReadLabel
      case _ => AllLabel
  }

  /** The books `myBooks` lists: all of the user's books without a status,
      those in that reading state otherwise (the status lookup is a filter
      over the user's books). */
  function ListedBooks(status: Option<string>, userBooks: seq<Book>): (r: seq<Book>)
    ensures IsNullOrEmpty(status) ==> r == userBooks
    ensures !IsNullOrEmpty(status) ==>
      IsSubsequence(r, userBooks) &&
      (forall i :: 0 <= i < |r| ==> r[i].status == status) &&
      (forall i :: 0 <= i < |userBooks| && userBooks[i].status == status ==> userBooks[i] in r)
  {
    if IsNullOrEmpty(status) then userBooks else Filter(userBooks, (b: Book) => b.status == status)
  }

  /** The `averageRating` of `myBooks`: null when no listed book is rated,
      otherwise the `int` sum of the ratings (which wraps around as Java's
      does) over the number of rated books. */
  function AverageRating(books: seq<Book>): (r: Option<real>)
    ensures r.None? <==> RatedCount(books) == 0
    ensures r.Some? ==> r.value * (RatedCount(books) as real) == Wrap32(RatingSum(books)) as real
  {
    var rated := RatedCount(books);
    if books == [] || rated == 0 then None
    else Some((Wrap32(RatingSum(books)) as real) / (rated as real))
  }

  /** No book is rated exactly when the rated count is zero, and then the
      ratings add up to zero. */
  lemma {:induction false} UnratedIffNoRating(books: seq<Book>)
    ensures RatedCount(books) == 0 <==> forall i :: 0 <= i < |books| ==> books[i].rating.None?
    ensures RatedCount(books) == 0 ==> RatingSum(books) == 0
  {
    if books != [] {
      UnratedIffNoRating(books[1..]);
      assert forall i :: 1 <= i < |books| ==> books[i] == books[1..][i - 1];
    }
  }

  /** The model of the `mypage/books` template. */
  datatype ShelfPage = ShelfPage(books: seq<Book>, currentUsername: string, averageRating: Option<real>,
                                 statusName: string, selectedStatus: Option<string>)

  /** `myBooks` for the signed-in `username`, whose books are `userBooks`. */
  function MyBooks(status: Option<string>, username: string, userBooks: seq<Book>): (r: ShelfPage)
    ensures r.books == ListedBooks(status, userBooks)
    ensures r.statusName == StatusName(status)
    ensures r.averageRating == AverageRating(r.books)
    ensures r.currentUsername == username && r.selectedStatus == status
  {
    var listed := ListedBooks(status, userBooks);
    ShelfPage(listed, username, AverageRating(listed), StatusName(status), status)
  }

  /** The confirmation guard of `updateUser`: a new password was entered and
      the confirmation differs from it. */
  predicate ConfirmationDiffers(newPassword: Option<string>, confirmPassword: Option<string>)
  {
    !IsNullOrBlank(newPassword) && Some(newPassword.value) != confirmPassword
  }

  /** `updateUser` for the signed-in `username`. A mismatching confirmation
      stops before the service is called; for a missing account the service
      throws as `MissingUserUpdateError` says, and the handler shows either
      the argument exception's message or its generic one; otherwise the
      account is updated, or the wrong-password message is shown and nothing
      stored. */
  method UpdateUser(service: UserService, username: string, name: string, email: Option<string>,
                    currentPassword: Option<string>, newPassword: Option<string>,
                    confirmPassword: Option<string>)
    returns (outcome: Outcome)
    modifies service
    requires service.Valid()
    ensures service.Valid()
    ensures ConfirmationDiffers(newPassword, confirmPassword) ==>
      outcome == Redirect(EditTarget, Some(Flash("error", PasswordMismatchMessage))) &&
      service.users == old(service.users) && service.nextId == old(service.nextId)
    ensures !ConfirmationDiffers(newPassword, confirmPassword) && !old(service.HasUsername(username)) ==>
      service.users == old(service.users) && service.nextId == old(service.nextId) &&
      (IsBlank(name) && IsNullOrBlank(email) && !IsNullOrBlank(newPassword) && currentPassword.None? ==>
        outcome == Redirect(EditTarget, Some(Flash("error", WrongPasswordMessage)))) &&
      (!(IsBlank(name) && IsNullOrBlank(email) && !IsNullOrBlank(newPassword) && currentPassword.None?) ==>
        outcome == Redirect(EditTarget, Some(Flash("error", UpdateFailedMessage))))
    ensures !ConfirmationDiffers(newPassword, confirmPassword) && old(service.HasUsername(username)) ==>
      exists k :: k in old(service.users) && old(service.users)[k].username == username &&
        var u := Updated(service.encoder, old(service.users)[k], Some(name), email, currentPassword, newPassword);
        (u.Thrown? ==>
          outcome == Redirect(EditTarget, Some(Flash("error", u.error))) &&
          service.users == old(service.users) && service.nextId == old(service.nextId)) &&
        (u.Ok? ==>
          outcome == Redirect("/mypage", Some(Flash("success", UpdatedMessage))) &&
          service.users == old(service.users)[k := u.value] && service.nextId == old(service.nextId))
  {
    var user := service.FindByUsername(username);
    if ConfirmationDiffers(newPassword, confirmPassword) {
      return Redirect(EditTarget, Some(Flash("error", PasswordMismatchMessage)));
    }
    if user.None? {
      var thrown := MissingUserUpdateError(Some(name), email, currentPassword, newPassword);
      return Redirect(EditTarget, Some(Flash("error", thrown.GetOr(UpdateFailedMessage))));
    }
    var k := user.value.id.value;
    var r := service.UpdateUser(user.value, Some(name), email, currentPassword, newPassword);
    if r.Thrown? {
      return Redirect(EditTarget, Some(Flash("error", r.error)));
    }
    assert service.users[k].username == username;
    var updated := service.FindByUsername(username);
    if updated.None? {
      return Redirect(EditTarget, Some(Flash("error", UpdateFailedMessage)));
    }
    outcome := Redirect("/mypage", Some(Flash("success", UpdatedMessage)));
  }

  /** `deleteUser` for the signed-in `username`: the account is removed and
      nothing else; without an account `delete(null)` throws and nothing
      changes. */
  method DeleteUser(service: UserService, username: string) returns (outcome: Outcome)
    modifies service
    requires service.Valid()
    ensures service.Valid() && service.nextId == old(service.nextId)
    ensures !old(service.HasUsername(username)) ==>
      outcome == Redirect("/mypage", Some(Flash("error", DeleteFailedMessage))) &&
      service.users == old(service.users)
    ensures old(service.HasUsername(username)) ==>
      outcome == Redirect("/", Some(Flash("success", DeletedMessage))) &&
      exists k :: k in old(service.users) && old(service.users)[k].username == username &&
        service.users == old(service.users) - {k}
  {
    var user := service.FindByUsername(username);
    if user.None? {
      return Redirect("/mypage", Some(Flash("error", DeleteFailedMessage)));
    }
    ghost var k := user.value.id.value;
    assert k in service.users && service.users[k].username == username;
    service.DeleteUser(user.value);
    outcome := Redirect("/", Some(Flash("success", DeletedMessage)));
  }
}
