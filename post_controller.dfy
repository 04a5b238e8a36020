/** PostController: the community board's list dispatch, writing and
    editing posts, and the owner checks on edit and delete. */
module PostController {
  import opened Wrappers
  import opened Text
  import opened Entities
  import opened Web
  import opened UserService
  import opened PostService

  const BoardTarget := "/community"
  const LoginTarget := "/auth/login"
  const NoEditPermissionMessage := "수정 권한이 없습니다."
  const NoDeletePermissionMessage := "삭제 권한이 없습니다."
  const DeletedMessage := "게시글이 삭제되었습니다."

  /** The repository query `list` runs. */
  datatype PostQuery =
    | AllPosts
    | ByCategory(category: string)
    | ByTitle(keyword: string)
    | ByCategoryAndTitle(category: string, keyword: string)

  /** The query of `list`: the keyword is searched exactly when it is not
      blank, the category filters exactly when it is not empty. */
  function ListQuery(category: Option<string>, keyword: Option<string>): (q: PostQuery)
    ensures (q.ByTitle? || q.ByCategoryAndTitle?) <==> !IsNullOrBlank(keyword)
    ensures (q.ByCategory? || q.ByCategoryAndTitle?) <==> !IsNullOrEmpty(category)
    ensures (q.ByTitle? || q.ByCategoryAndTitle?) ==> q.keyword == keyword.value
    ensures (q.ByCategory? || q.ByCategoryAndTitle?) ==> q.category == category.value
  {
    if !IsNullOrBlank(keyword) then
      if !IsNullOrEmpty(category) then ByCategoryAndTitle(category.value, keyword.value)
      else ByTitle(keyword.value)
    else if !IsNullOrEmpty(category) then ByCategory(category.value)
    else AllPosts
  }

  /** `newPostForm`: the form for a signed-in user, the login page otherwise. */
  function NewPostForm(principal: Option<string>): (r: Outcome)
    ensures r.Redirect? <==> principal.None?
    ensures r.Redirect? ==> r.target == LoginTarget && r.flash.None?
    ensures !r.Redirect? ==> r == Render("community/form")
  {
    if principal.None? then Redirect(LoginTarget, None) else Render("community/form")
  }

  /** The author `savePost` gives a new post: the signed-in user, or null
      when `findByUsername` finds nobody. */
  function NewAuthor(users: UserService, username: string): (r: Option<string>)
    reads users
    ensures r.Some? <==> users.HasUsername(username)
    ensures r.Some? ==> r.value == username
  {
    if users.HasUsername(username) then Some(username) else None
  }

  /** `savePost`. A new post is saved with the signed-in user as author and
      no views. An edit first reads the stored post through `getPostById`,
      which counts a view; only its owner's edit is saved, keeping the
      stored author and that view count. */
  method SavePost(posts: PostService, users: UserService, post: Post, principal: Option<string>)
    returns (outcome: Outcome)
    modifies posts
    requires posts.Valid() && users.Valid()
    ensures posts.Valid()
    ensures principal.None? ==>
      outcome == Failed(NullDereference) && posts.posts == old(posts.posts) && posts.nextId == old(posts.nextId)
    ensures principal.Some? && post.id.None? ==>
      var saved := post.(id := Some(old(posts.nextId)), author := NewAuthor(users, principal.value), viewCount := 0);
      outcome == Redirect(BoardTarget, None) &&
      posts.posts == old(posts.posts)[old(posts.nextId) := saved] && posts.nextId == old(posts.nextId) + 1
    ensures principal.Some? && post.id.Some? && post.id.value !in old(posts.posts) ==>
      outcome == Failed(PostNotFoundMessage) && posts.posts == old(posts.posts) && posts.nextId == old(posts.nextId)
    ensures principal.Some? && post.id.Some? && post.id.value in old(posts.posts) ==>
      var k := post.id.value;
      var existing := old(posts.posts)[k];
      posts.nextId == old(posts.nextId) &&
      (existing.author.None? ==>
        outcome == Failed(NullDereference) && posts.posts == old(posts.posts)[k := Viewed(existing)]) &&
      (IsOwner(existing.author, principal) == Some(false) ==>
        outcome == Redirect(BoardTarget, Some(Flash("error", NoEditPermissionMessage))) &&
        posts.posts == old(posts.posts)[k := Viewed(existing)]) &&
      (IsOwner(existing.author, principal) == Some(true) ==>
        outcome == Redirect(BoardTarget, None) &&
        posts.posts == old(posts.posts)[k := post.(author := existing.author, viewCount := existing.viewCount + 1)])
  {
    if principal.None? {
      return Failed(NullDereference);
    }
    var user := users.FindByUsername(principal.value);
    var toSave := post;
    if post.id.None? {
      toSave := post.(author := if user.Some? then Some(user.value.username) else None, viewCount := 0);
    } else {
      var existing := posts.GetPostById(post.id.value);
      if existing.Thrown? {
        return Failed(existing.error);
      }
      var owner := IsOwner(existing.value.author, principal);
      if owner.None? {
        return Failed(NullDereference);
      }
      if !owner.value {
        return Redirect(BoardTarget, Some(Flash("error", NoEditPermissionMessage)));
      }
      toSave := post.(author := existing.value.author, viewCount := existing.value.viewCount);
    }
    var _ := posts.SavePost(toSave);
    outcome := Redirect(BoardTarget, None);
  }

  /** `detail`: the post, read through `getPostById` and so with one more
      view. */
  method Detail(posts: PostService, id: int) returns (outcome: Outcome, shown: Option<Post>)
    modifies posts
    requires posts.Valid()
    ensures posts.Valid() && posts.nextId == old(posts.nextId)
    ensures id !in old(posts.posts) ==>
      outcome == Failed(PostNotFoundMessage) && shown.None? && posts.posts == old(posts.posts)
    ensures id in old(posts.posts) ==>
      outcome == Render("community/detail") && shown == Some(Viewed(old(posts.posts)[id])) &&
      posts.posts == old(posts.posts)[id := shown.value]
  {
    var post := posts.GetPostById(id);
    if post.Thrown? {
      return Failed(post.error), None;
    }
    outcome, shown := Render("community/detail"), Some(post.value);
  }

  /** `editForm`: the form for the post's owner, an error otherwise; the
      check reads the post through `getPostById`, so either way the post
      gains a view. */
  method EditForm(posts: PostService, id: int, principal: Option<string>) returns (outcome: Outcome)
    modifies posts
    requires posts.Valid()
    ensures posts.Valid() && posts.nextId == old(posts.nextId)
    ensures id !in old(posts.posts) ==> outcome == Failed(PostNotFoundMessage) && posts.posts == old(posts.posts)
    ensures id in old(posts.posts) ==>
      var existing := old(posts.posts)[id];
      posts.posts == old(posts.posts)[id := Viewed(existing)] &&
      (IsOwner(existing.author, principal).None? ==> outcome == Failed(NullDereference)) &&
      (IsOwner(existing.author, principal) == Some(false) ==>
        outcome == Redirect(BoardTarget, Some(Flash("error", NoEditPermissionMessage)))) &&
      (IsOwner(existing.author, principal) == Some(true) ==> outcome == Render("community/form"))
  {
    var post := posts.GetPostById(id);
    if post.Thrown? {
      return Failed(post.error);
    }
    var owner := IsOwner(post.value.author, principal);
    if owner.None? {
      return Failed(NullDereference);
    }
    if !owner.value {
      return Redirect(BoardTarget, Some(Flash("error", NoEditPermissionMessage)));
    }
    outcome := Render("community/form");
  }

  /** `delete`: the owner's delete removes exactly that post; anyone else's
      removes nothing and leaves the post with the view the check counted. */
  method Delete(posts: PostService, id: int, principal: Option<string>) returns (outcome: Outcome)
    modifies posts
    requires posts.Valid()
    ensures posts.Valid() && posts.nextId == old(posts.nextId)
    ensures id !in old(posts.posts) ==> outcome == Failed(PostNotFoundMessage) && posts.posts == old(posts.posts)
    ensures id in old(posts.posts) ==>
      var existing := old(posts.posts)[id];
      (IsOwner(existing.author, principal).None? ==>
        outcome == Failed(NullDereference) && posts.posts == old(posts.posts)[id := Viewed(existing)]) &&
      (IsOwner(existing.author, principal) == Some(false) ==>
        outcome == Redirect(BoardTarget, Some(Flash("error", NoDeletePermissionMessage))) &&
        posts.posts == old(posts.posts)[id := Viewed(existing)]) &&
      (IsOwner(existing.author, principal) == Some(true) ==>
        outcome == Redirect(BoardTarget, Some(Flash("message", DeletedMessage))) &&
        posts.posts == old(posts.posts) - {id})
  {
    var post := posts.GetPostById(id);
    if post.Thrown? {
      return Failed(post.error);
    }
    var owner := IsOwner(post.value.author, principal);
    if owner.None? {
      return Failed(NullDereference);
    }
    if !owner.value {
      return Redirect(BoardTarget, Some(Flash("error", NoDeletePermissionMessage)));
    }
    posts.DeletePost(id);
    outcome := Redirect(BoardTarget, Some(Flash("message", DeletedMessage)));
  }
}
