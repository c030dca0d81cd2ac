/** The comment handlers: list a post's comments, add one, delete one's own. */
module CommentController {
  import opened Common
  import opened Collections
  import opened Models
  import opened Http
  import opened Store

  /** `getComments`: the post's comments, each once, newest first. */
  method GetComments(db: Database, postId: string, store: StoreStatus) returns (r: Response)
    requires db.Valid()
    ensures !ValidId(postId) ==> r == Fail(400, "Invalid post ID format")
    ensures ValidId(postId) && store.Down? ==> r == Fail(500, "Server Error")
    ensures ValidId(postId) && store.Up? ==>
              && r.status == 200 && r.success && r.body.Comments?
              && (forall c :: c in r.body.comments <==> c in db.comments.Values && c.postId == postId)
              && Distinct(r.body.comments)
              && SortedDesc(r.body.comments, (c: Comment) => c.createdAt)
  {
    if !ValidId(postId) {
      return Fail(400, "Invalid post ID format");
    }
    if store.Down? {
      return Fail(500, "Server Error");
    }
    var comments := ListWhere(db.comments, (c: Comment) => c.postId == postId, (c: Comment) => c.createdAt);
    r := Ok(200, Comments(comments));
  }

  /** The body of a create request. */
  datatype CommentBody = CommentBody(content: Option<string>, userId: Option<string>, username: Option<string>)

  /** Every guard of `createComment` passes. */
  predicate CommentSaves(postId: string, b: CommentBody, store: StoreStatus) {
    Truthy(b.content) && Truthy(b.userId) && Truthy(b.username)
    && ValidId(postId) && ValidId(b.userId.value) && store.Up?
  }

  /** `newId` is the id the driver gives the new comment. The post is not looked
      up: a comment on a post that does not exist is stored as well. */
  function CreateCommentOutcome(s: Snapshot, postId: string, b: CommentBody, newId: Id, now: int,
                                store: StoreStatus): (o: Outcome)
    requires Invariant(s) && ValidId(newId) && newId !in s.comments
    ensures Invariant(o.after)
    ensures !(Truthy(b.content) && Truthy(b.userId) && Truthy(b.username)) ==>
              o == Outcome(Fail(400, "Please provide all required fields"), s)
    ensures Truthy(b.content) && Truthy(b.userId) && Truthy(b.username)
            && !(ValidId(postId) && ValidId(b.userId.value)) ==>
              o == Outcome(Fail(400, "Invalid ID format"), s)
    ensures Truthy(b.content) && Truthy(b.userId) && Truthy(b.username)
            && ValidId(postId) && ValidId(b.userId.value) && store.Down? ==>
              o == Outcome(Fail(500, "Server Error"), s)
    ensures o.response.status == 201 <==> CommentSaves(postId, b, store)
    ensures CommentSaves(postId, b, store) ==>
              var c := NewComment(newId, b.content.value, postId, b.userId.value, b.username.value, now);
              && o.response == Ok(201, OneComment(c))
              && o.after == s.(comments := s.comments[newId := c])
              && CommentRequiredPresent(c)
  {
    if !Truthy(b.content) || !Truthy(b.userId) || !Truthy(b.username) then
      Outcome(Fail(400, "Please provide all required fields"), s)
    else if !ValidId(postId) || !ValidId(b.userId.value) then Outcome(Fail(400, "Invalid ID format"), s)
    else if store.Down? then Outcome(Fail(500, "Server Error"), s)
    else
      var c := NewComment(newId, b.content.value, postId, b.userId.value, b.username.value, now);
      AddCommentKeeps(s.comments, c);
      Outcome(Ok(201, OneComment(c)), s.(comments := s.comments[newId := c]))
  }

  /** `createComment`. */
  method CreateComment(db: Database, postId: string, b: CommentBody, newId: Id, now: int,
                       store: StoreStatus) returns (r: Response)
    requires db.Valid() && ValidId(newId) && newId !in db.comments
    modifies db
    ensures db.Valid()
    ensures Outcome(r, db.State()) == CreateCommentOutcome(old(db.State()), postId, b, newId, now, store)
  {
    if !Truthy(b.content) || !Truthy(b.userId) || !Truthy(b.username) {
      return Fail(400, "Please provide all required fields");
    }
    if !ValidId(postId) || !ValidId(b.userId.value) {
      return Fail(400, "Invalid ID format");
    }
    if store.Down? {
      return Fail(500, "Server Error");
    }
    var newComment := NewComment(newId, b.content.value, postId, b.userId.value, b.username.value, now);
    AddCommentKeeps(db.comments, newComment);
    db.comments := db.comments[newId := newComment];
    r := Ok(201, OneComment(newComment));
  }

  /** Every guard of `deleteComment` passes and the requester wrote the comment. */
  predicate CommentDeleteAllowed(s: Snapshot, commentId: string, userId: Option<string>, store: StoreStatus) {
    ValidId(commentId) && ValidOptId(userId) && store.Up? && commentId in s.comments
    && s.comments[commentId].userId == userId.value
  }

  /** `userId` is the `userId` query parameter of the request. */
  function DeleteCommentOutcome(s: Snapshot, commentId: string, userId: Option<string>,
                                store: StoreStatus): (o: Outcome)
    requires Invariant(s)
    ensures Invariant(o.after)
    ensures !(ValidId(commentId) && ValidOptId(userId)) ==> o == Outcome(Fail(400, "Invalid ID format"), s)
    ensures ValidId(commentId) && ValidOptId(userId) && store.Down? ==> o == Outcome(Fail(500, "Server Error"), s)
    ensures ValidId(commentId) && ValidOptId(userId) && store.Up? && commentId !in s.comments ==>
              o == Outcome(Fail(404, "Comment not found"), s)
    ensures ValidId(commentId) && ValidOptId(userId) && store.Up? && commentId in s.comments
            && s.comments[commentId].userId != userId.value ==>
              o == Outcome(Fail(403, "Not authorized to delete this comment"), s)
    ensures o.response.status == 200 <==> CommentDeleteAllowed(s, commentId, userId, store)
    ensures CommentDeleteAllowed(s, commentId, userId, store) ==>
              o == Outcome(Done("Comment deleted successfully"), s.(comments := s.comments - {commentId}))
  {
    if !ValidId(commentId) || !ValidOptId(userId) then Outcome(Fail(400, "Invalid ID format"), s)
    else if store.Down? then Outcome(Fail(500, "Server Error"), s)
    else if commentId !in s.comments then Outcome(Fail(404, "Comment not found"), s)
    else if s.comments[commentId].userId != userId.value then
      Outcome(Fail(403, "Not authorized to delete this comment"), s)
    else Outcome(Done("Comment deleted successfully"), s.(comments := s.comments - {commentId}))
  }

  /** Only the author of a comment can remove it: whoever else asks, the
      comment stays where it is. */
  lemma OnlyAuthorDeletesComment(s: Snapshot, commentId: Id, userId: Option<string>, store: StoreStatus)
    requires Invariant(s) && commentId in s.comments
    ensures var o := DeleteCommentOutcome(s, commentId, userId, store);
            commentId !in o.after.comments <==> userId == Some(s.comments[commentId].userId) && store.Up?
  {
  }

  /** A comment created and then deleted by its author leaves the comments as they were. */
  lemma CreateThenDeleteComment(s: Snapshot, postId: string, b: CommentBody, newId: Id, now: int)
    requires Invariant(s) && ValidId(newId) && newId !in s.comments && CommentSaves(postId, b, Up)
    ensures var s1 := CreateCommentOutcome(s, postId, b, newId, now, Up).after;
            var o := DeleteCommentOutcome(s1, newId, b.userId, Up);
            o.response.status == 200 && o.after == s
  {
    var s1 := CreateCommentOutcome(s, postId, b, newId, now, Up).after;
    assert s1.comments - {newId} == s.comments;
  }

  /** `deleteComment`. */
  method DeleteComment(db: Database, commentId: string, userId: Option<string>, store: StoreStatus)
    returns (r: Response)
    requires db.Valid()
    modifies db
    ensures db.Valid()
    ensures Outcome(r, db.State()) == DeleteCommentOutcome(old(db.State()), commentId, userId, store)
  {
    if !ValidId(commentId) || !ValidOptId(userId) {
      return Fail(400, "Invalid ID format");
    }
    if store.Down? {
      return Fail(500, "Server Error");
    }
    if commentId !in db.comments {
      return Fail(404, "Comment not found");
    }
    if db.comments[commentId].userId != userId.value {
      return Fail(403, "Not authorized to delete this comment");
    }
    db.comments := db.comments - {commentId};
    r := Done("Comment deleted successfully");
  }
}
