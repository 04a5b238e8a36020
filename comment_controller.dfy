/** CommentController: writing a comment under a post and the owner check on
    deleting one. */
module CommentController {
  import opened Wrappers
  import opened Text
  import opened Entities
  import opened Web
  import opened UserService
  import opened PostService
  import opened CommentService

  const LoginTarget := "/auth/login"
  const NoDeletePermissionMessage := "삭제 권한이 없습니다."

  const PostPrefix := "/community/"

  /** `"/community/" + postId`: the post's page, from which the id reads
      back. */
  function PostTarget(postId: int): (r: string)
    ensures |r| > |PostPrefix| && r[..|PostPrefix|] == PostPrefix
    ensures ParseSignedDigits(r[|PostPrefix|..]) == Some(postId)
  {
    var digits := IntToString(postId);
    ParseSignedDigitsOfToString(postId);
    assert (PostPrefix + digits)[|PostPrefix|..] == digits;
    PostPrefix + digits
  }

  /** `createComment`. Without a signed-in user nothing happens; otherwise
      the post is read through `getPostById`, which counts a view, and the
      comment is saved with the given content, that post and the signed-in
      user as author. */
  method CreateComment(posts: PostService, users: UserService, comments: CommentService,
                       postId: int, content: string, principal: Option<string>)
    returns (outcome: Outcome)
    modifies posts, comments
    requires posts.Valid() && users.Valid() && comments.Valid()
    ensures posts.Valid() && comments.Valid() && posts.nextId == old(posts.nextId)
    ensures principal.None? ==>
      outcome == Redirect(LoginTarget, None) &&
      posts.posts == old(posts.posts) && comments.comments == old(comments.comments) &&
      comments.nextId == old(comments.nextId)
    ensures principal.Some? && postId !in old(posts.posts) ==>
      outcome == Failed(PostNotFoundMessage) &&
      posts.posts == old(posts.posts) && comments.comments == old(comments.comments) &&
      comments.nextId == old(comments.nextId)
    ensures principal.Some? && postId in old(posts.posts) ==>
      var k := old(comments.nextId);
      var author := if users.HasUsername(principal.value) then Some(principal.value) else None;
      outcome == Redirect(PostTarget(postId), None) &&
      posts.posts == old(posts.posts)[postId := Viewed(old(posts.posts)[postId])] &&
      comments.comments == old(comments.comments)[k := Comment(Some(k), content, postId, author)] &&
      comments.nextId == k + 1
  {
    if principal.None? {
      return Redirect(LoginTarget, None);
    }
    var post := posts.GetPostById(postId);
    if post.Thrown? {
      return Failed(post.error);
    }
    var user := users.FindByUsername(principal.value);
    var comment := Comment(None, content, post.value.id.value,
                           if user.Some? then Some(user.value.username) else None);
    var _ := comments.SaveComment(comment);
    outcome := Redirect(PostTarget(postId), None);
  }

  /** `deleteComment`: the author's delete removes exactly that comment,
      anyone else's nothing; both go back to the post. */
  method DeleteComment(comments: CommentService, postId: int, commentId: int, principal: Option<string>)
    returns (outcome: Outcome)
    modifies comments
    requires comments.Valid()
    ensures comments.Valid() && comments.nextId == old(comments.nextId)
    ensures commentId !in old(comments.comments) ==>
      outcome == Failed(CommentNotFoundMessage) && comments.comments == old(comments.comments)
    ensures commentId in old(comments.comments) ==>
      var author := old(comments.comments)[commentId].author;
      (IsOwner(author, principal).None? ==>
        outcome == Failed(NullDereference) && comments.comments == old(comments.comments)) &&
      (IsOwner(author, principal) == Some(false) ==>
        outcome == Redirect(PostTarget(postId), Some(Flash("error", NoDeletePermissionMessage))) &&
        comments.comments == old(comments.comments)) &&
      (IsOwner(author, principal) == Some(true) ==>
        outcome == Redirect(PostTarget(postId), None) &&
        comments.comments == old(comments.comments) - {commentId})
  {
    var comment := comments.GetCommentById(commentId);
    if comment.Thrown? {
      return Failed(comment.error);
    }
    var owner := IsOwner(comment.value.author, principal);
    if owner.None? {
      return Failed(NullDereference);
    }
    if !owner.value {
      return Redirect(PostTarget(postId), Some(Flash("error", NoDeletePermissionMessage)));
    }
    comments.DeleteComment(commentId);
    outcome := Redirect(PostTarget(postId), None);
  }
}
