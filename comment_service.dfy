/** CommentService: comments kept in a store keyed by id. The per-post
    listing and count are repository queries and are not part of this
    model. */
module CommentService {
  import opened Wrappers
  import opened Entities
  import opened UserService

  const CommentNotFoundMessage := "댓글을 찾을 수 없습니다."

  class CommentService {
    /** The `comments` table. */
    var comments: map<int, Comment>
    /** The id the next inserted comment receives. */
    var nextId: int

    /** Every comment is stored under its own id, below `nextId`. */
    ghost predicate Valid()
      reads this
    {
      forall k :: k in comments ==> comments[k].id == Some(k) && k < nextId
    }

    constructor()
      ensures Valid() && comments == map[] && nextId == 0
    {
      comments := map[];
      nextId := 0;
    }

    /** `saveComment`: `save` stores the comment under its id, or under the
        next free id when it has none, and returns it with that id. */
    method SaveComment(comment: Comment) returns (saved: Comment)
      modifies this
      requires Valid()
      ensures Valid()
      ensures saved == comment.(id := Some(SavedId(comment.id, old(nextId))))
      ensures comments == old(comments)[saved.id.value := saved]
      ensures comment.id.None? ==> saved.id.value !in old(comments)
      ensures nextId == if saved.id.value < old(nextId) then old(nextId) else saved.id.value + 1
    {
      var k := SavedId(comment.id, nextId);
      saved := comment.(id := Some(k));
      comments := comments[k := saved];
      if k >= nextId {
        nextId := k + 1;
      }
    }

    /** `getCommentById`: the stored comment, or the not-found exception. */
    method GetCommentById(id: int) returns (r: Result<Comment, string>)
      requires Valid()
      ensures id !in comments ==> r == Thrown(CommentNotFoundMessage)
      ensures id in comments ==> r == Ok(comments[id]) && r.value.id == Some(id)
    {
      if id !in comments {
        return Thrown(CommentNotFoundMessage);
      }
      r := Ok(comments[id]);
    }

    /** `deleteComment`: `deleteById` removes that id and nothing else. */
    method DeleteComment(id: int)
      modifies this
      requires Valid()
      ensures Valid() && nextId == old(nextId)
      ensures comments == old(comments) - {id}
    {
      comments := comments - {id};
    }
  }
}
