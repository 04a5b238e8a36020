/** PostService: community posts kept in a store keyed by id. The list and
    search queries are repository queries and are not part of this model. */
module PostService {
  import opened Wrappers
  import opened Entities
  import opened UserService

  const PostNotFoundMessage := "게시글을 찾을 수 없습니다."

  /** A post as `getPostById` leaves it: read once more. */
  function Viewed(post: Post): (r: Post)
    ensures r.viewCount == post.viewCount + 1
    ensures r.(viewCount := post.viewCount) == post
  {
    post.(viewCount := post.viewCount + 1)
  }

  class PostService {
    /** The `posts` table. */
    var posts: map<int, Post>
    /** The id the next inserted post receives. */
    var nextId: int

    /** Every post is stored under its own id, below `nextId`. */
    ghost predicate Valid()
      reads this
    {
      forall k :: k in posts ==> posts[k].id == Some(k) && k < nextId
    }

    constructor()
      ensures Valid() && posts == map[] && nextId == 0
    {
      posts := map[];
      nextId := 0;
    }

    /** `postRepository.save`: the post is stored under its id, or under
        the next free id when it has none, and is returned with that id. */
    method Save(post: Post) returns (saved: Post)
      modifies this
      requires Valid()
      ensures Valid()
      ensures saved == post.(id := Some(SavedId(post.id, old(nextId))))
      ensures posts == old(posts)[saved.id.value := saved]
      ensures post.id.None? ==> saved.id.value !in old(posts)
      ensures nextId == if saved.id.value < old(nextId) then old(nextId) else saved.id.value + 1
    {
      var k := SavedId(post.id, nextId);
      saved := post.(id := Some(k));
      posts := posts[k := saved];
      if k >= nextId {
        nextId := k + 1;
      }
    }

    /** `getPostById`: the post, stored back with one more view; a missing id
        throws before anything is stored. */
    method GetPostById(id: int) returns (r: Result<Post, string>)
      modifies this
      requires Valid()
      ensures Valid() && nextId == old(nextId)
      ensures id !in old(posts) ==> r == Thrown(PostNotFoundMessage) && posts == old(posts)
      ensures id in old(posts) ==>
        r == Ok(Viewed(old(posts)[id])) && r.value.id == Some(id) && posts == old(posts)[id := r.value]
    {
      if id !in posts {
        return Thrown(PostNotFoundMessage);
      }
      assert Viewed(posts[id]).id == Some(id);
      var saved := Save(Viewed(posts[id]));
      r := Ok(saved);
    }

    /** `savePost`. */
    method SavePost(post: Post) returns (saved: Post)
      modifies this
      requires Valid()
      ensures Valid()
      ensures saved == post.(id := Some(SavedId(post.id, old(nextId))))
      ensures posts == old(posts)[saved.id.value := saved]
      ensures post.id.None? ==> saved.id.value !in old(posts)
      ensures nextId == if saved.id.value < old(nextId) then old(nextId) else saved.id.value + 1
    {
      saved := Save(post);
    }

    /** `deletePost`: `deleteById` removes that id and nothing else; a missing
        id is ignored. */
    method DeletePost(id: int)
      modifies this
      requires Valid()
      ensures Valid() && nextId == old(nextId)
      ensures posts == old(posts) - {id}
    {
      posts := posts - {id};
    }
  }
}
