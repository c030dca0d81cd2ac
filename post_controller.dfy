/** The post handlers: create, update, delete, like, and the two lookups.
    Each handler that writes is a pure outcome function over a store snapshot,
    which states what the handler promises, and a method that performs the same
    steps on the database and is proved to end in that outcome. */
module PostController {
  import opened Common
  import opened Collections
  import opened Models
  import opened Http
  import opened Store

  // ------------------------------------------------------------ like state

  /** `post.likes` after `liker` toggles: every occurrence filtered out when the
      liker is there, the liker pushed once when not. */
  function ToggleLike(likes: seq<Id>, liker: Id): (r: seq<Id>)
    ensures liker in r <==> liker !in likes
    ensures multiset(r)[liker] <= 1
    ensures Without(r, liker) == Without(likes, liker)
  {
    if liker in likes then
      WithoutIdempotent(likes, liker);
      Without(likes, liker)
    else
      WithoutAppended(likes, liker);
      likes + [liker]
  }

  /** The author's `totalLikesReceived` after a like (`t + 1`) or an unlike
      (`Math.max(0, t - 1)`): never negative from a non-negative total. */
  function AdjustedTotal(total: int, wasLiked: bool): (t: int)
    ensures total >= 0 ==> t >= 0
    ensures wasLiked ==> t <= total || t == 0
    ensures !wasLiked ==> t > total
  {
    if wasLiked then Max(0, total - 1) else total + 1
  }

  /** Likers other than the toggling user keep their multiplicity. */
  lemma ToggleKeepsOtherLikers(likes: seq<Id>, liker: Id, other: Id)
    requires other != liker
    ensures multiset(ToggleLike(likes, liker))[other] == multiset(likes)[other]
  {
    var r := ToggleLike(likes, liker);
    assert multiset(Without(r, liker))[other] == multiset(r)[other];
    assert multiset(Without(likes, liker))[other] == multiset(likes)[other];
  }

  /** A like list without repeats stays without repeats. */
  lemma ToggleKeepsDistinct(likes: seq<Id>, liker: Id)
    requires Distinct(likes)
    ensures Distinct(ToggleLike(likes, liker))
  {
    if liker in likes {
      WithoutDistinct(likes, liker);
    } else {
      var r := likes + [liker];
      forall i, j | 0 <= i < j < |r|
        ensures r[i] != r[j]
      {
        if j == |likes| {
          assert r[i] == likes[i];
        }
      }
    }
  }

  /** Two toggles by the same user restore whether that user likes the post, and
      restore the whole like multiset when the user liked it at most once. */
  lemma ToggleTwice(likes: seq<Id>, liker: Id)
    ensures liker in ToggleLike(ToggleLike(likes, liker), liker) <==> liker in likes
    ensures multiset(likes)[liker] <= 1 ==>
              multiset(ToggleLike(ToggleLike(likes, liker), liker)) == multiset(likes)
  {
    var once := ToggleLike(likes, liker);
    var twice := ToggleLike(once, liker);
    if liker !in likes {
      assert twice == Without(likes + [liker], liker);
      WithoutAppended(likes, liker);
      WithoutAbsent(likes, liker);
    } else if multiset(likes)[liker] <= 1 {
      assert twice == once + [liker];
      forall y
        ensures multiset(twice)[y] == multiset(likes)[y]
      {
        if y != liker {
          assert multiset(once)[y] == multiset(likes)[y];
        }
      }
    }
  }

  /** Two toggles by the same user restore the author's total exactly when the
      first was a like from a non-negative total or an unlike from a positive one. */
  lemma ToggleTwiceTotal(total: int, wasLiked: bool)
    ensures AdjustedTotal(AdjustedTotal(total, wasLiked), !wasLiked) == total
            <==> (if wasLiked then total >= 1 else total >= 0)
  {
  }

  // ------------------------------------------------------------ likePost

  /** Every lookup of `likePost` passes: both ids well formed, the store up, the
      post and its author found. */
  predicate LikeFound(s: Snapshot, id: string, userId: Option<string>, store: StoreStatus) {
    ValidId(id) && ValidOptId(userId) && store.Up? && id in s.posts && s.posts[id].userId in s.users
  }

  /** The like is saved: the lookups pass and the post still satisfies its
      schema's `required` validators, which `post.save()` runs again (a stored
      post can lack them after `updatePost`, which runs no validators). */
  predicate LikeAccepted(s: Snapshot, id: string, userId: Option<string>, store: StoreStatus) {
    LikeFound(s, id, userId, store) && PostRequiredPresent(s.posts[id])
  }

  /** The paths of the post's empty required strings, in schema order. */
  function MissingPaths(p: Post): (r: seq<string>)
    ensures r == [] <==> PostRequiredPresent(p)
  {
    (if p.title == "" then ["title"] else [])
    + (if p.caption == "" then ["caption"] else [])
    + (if p.author == "" then ["author"] else [])
  }

  /** One Mongoose `required` error per path, separated by a comma. */
  function RequiredErrors(paths: seq<string>): string
  {
    if paths == [] then ""
    else
      var e := paths[0] + ": Path `" + paths[0] + "` is required.";
      if |paths| == 1 then e else e + ", " + RequiredErrors(paths[1..])
  }

  /** The message of the validation error `post.save()` rejects with. */
  function PostValidationMessage(p: Post): string {
    "Post validation failed: " + RequiredErrors(MissingPaths(p))
  }

  /** The post after the toggle, with the count recomputed from the list. */
  function LikedVersion(p: Post, liker: Id): (q: Post)
    ensures q == p.(likes := q.likes, likesCount := q.likesCount)
    ensures q.likesCount == |q.likes|
  {
    var likes := ToggleLike(p.likes, liker);
    p.(likes := likes, likesCount := |likes|)
  }

  function LikePostOutcome(s: Snapshot, id: string, userId: Option<string>, store: StoreStatus): (o: Outcome)
    requires Invariant(s)
    ensures Invariant(o.after)
    ensures o.response.status != 200 ==> o.after == s && !o.response.success
    ensures !ValidId(id) ==> o.response == Fail(404, "Invalid Post ID")
    ensures ValidId(id) && !ValidOptId(userId) ==> o.response == Fail(404, "Invalid User ID")
    ensures ValidId(id) && ValidOptId(userId) && store.Down? ==>
              o.response == Response(500, false, "Server Error", ErrorDetail(store.message))
    ensures ValidId(id) && ValidOptId(userId) && store.Up? && id !in s.posts ==>
              o.response == Fail(404, "Post not found")
    ensures ValidId(id) && ValidOptId(userId) && store.Up? && id in s.posts && s.posts[id].userId !in s.users ==>
              o.response == Fail(404, "Post author not found")
    ensures LikeFound(s, id, userId, store) && !PostRequiredPresent(s.posts[id]) ==>
              o.response == Response(500, false, "Server Error", ErrorDetail(PostValidationMessage(s.posts[id])))
    ensures o.response.status == 200 <==> LikeAccepted(s, id, userId, store)
  {
    if !ValidId(id) then Outcome(Fail(404, "Invalid Post ID"), s)
    else if !ValidOptId(userId) then Outcome(Fail(404, "Invalid User ID"), s)
    else if store.Down? then Outcome(Response(500, false, "Server Error", ErrorDetail(store.message)), s)
    else if id !in s.posts then Outcome(Fail(404, "Post not found"), s)
    else
      var p := s.posts[id];
      if p.userId !in s.users then Outcome(Fail(404, "Post author not found"), s)
      else if !PostRequiredPresent(p) then
        Outcome(Response(500, false, "Server Error", ErrorDetail(PostValidationMessage(p))), s)
      else
        var author := s.users[p.userId];
        var q := LikedVersion(p, userId.value);
        var total := AdjustedTotal(author.totalLikesReceived, userId.value in p.likes);
        var s1 := s.(posts := s.posts[id := q]);
        PutPostKeeps(s.posts, q);
        ReplaceUserKeeps(s.users, author.(totalLikesReceived := total));
        Outcome(Ok(200, LikedPost(q, total)), s1.(users := s1.users[p.userId := author.(totalLikesReceived := total)]))
  }

  /** What an accepted like writes: the liker's membership flips, nobody else's
      changes, the author's total follows, nothing else in the store moves, and
      the reply carries the saved post and total. */
  lemma LikeEffect(s: Snapshot, id: string, userId: Option<string>, store: StoreStatus)
    requires Invariant(s) && LikeAccepted(s, id, userId, store)
    ensures var o := LikePostOutcome(s, id, userId, store);
            var p := s.posts[id];
            var liker := userId.value;
            var author := s.users[p.userId];
            && id in o.after.posts && p.userId in o.after.users
            && var q := o.after.posts[id];
            && var t := o.after.users[p.userId].totalLikesReceived;
            && q.likesCount == |q.likes|
            && (liker in q.likes <==> liker !in p.likes)
            && multiset(q.likes)[liker] <= 1
            && Without(q.likes, liker) == Without(p.likes, liker)
            && t == (if liker in p.likes then Max(0, author.totalLikesReceived - 1)
                     else author.totalLikesReceived + 1)
            && q == p.(likes := q.likes, likesCount := q.likesCount)
            && o.after.posts == s.posts[id := q]
            && o.after.users == s.users[p.userId := author.(totalLikesReceived := t)]
            && o.after.comments == s.comments
            && o.response == Ok(200, LikedPost(q, t))
  {
  }

  /** A like keeps the post's like state consistent when it was consistent before. */
  lemma LikeKeepsConsistency(s: Snapshot, id: string, userId: Option<string>, store: StoreStatus)
    requires Invariant(s) && LikeAccepted(s, id, userId, store)
    requires LikesConsistent(s.posts[id])
    ensures LikesConsistent(LikePostOutcome(s, id, userId, store).after.posts[id])
  {
    ToggleKeepsDistinct(s.posts[id].likes, userId.value);
  }

  /** The same user liking the same post twice in a row: both calls succeed, the
      user's membership in `likes` is as before, and the author's total is as
      before exactly when it was positive for an unlike first, or non-negative
      for a like first (a negative total can be preset at sign-up). */
  lemma LikeTwice(s: Snapshot, id: string, userId: Option<string>, store: StoreStatus)
    requires Invariant(s) && LikeAccepted(s, id, userId, store)
    ensures var s1 := LikePostOutcome(s, id, userId, store).after;
            && LikeAccepted(s1, id, userId, store)
            && var s2 := LikePostOutcome(s1, id, userId, store).after;
            && var author := s.posts[id].userId;
            && (userId.value in s2.posts[id].likes <==> userId.value in s.posts[id].likes)
            && (s2.users[author].totalLikesReceived == s.users[author].totalLikesReceived
                <==> (if userId.value in s.posts[id].likes then s.users[author].totalLikesReceived >= 1
                      else s.users[author].totalLikesReceived >= 0))
  {
    var s1 := LikePostOutcome(s, id, userId, store).after;
    LikeEffect(s, id, userId, store);
    LikeEffect(s1, id, userId, store);
    ToggleTwice(s.posts[id].likes, userId.value);
    ToggleTwiceTotal(s.users[s.posts[id].userId].totalLikesReceived, userId.value in s.posts[id].likes);
  }

  /** `likePost`: the steps of the handler on the live database. */
  method LikePost(db: Database, id: string, userId: Option<string>, store: StoreStatus) returns (r: Response)
    requires db.Valid()
    modifies db
    ensures db.Valid()
    ensures Outcome(r, db.State()) == LikePostOutcome(old(db.State()), id, userId, store)
  {
    if !ValidId(id) {
      return Fail(404, "Invalid Post ID");
    }
    if !ValidOptId(userId) {
      return Fail(404, "Invalid User ID");
    }
    if store.Down? {
      return Response(500, false, "Server Error", ErrorDetail(store.message));
    }
    if id !in db.posts {
      return Fail(404, "Post not found");
    }
    if db.posts[id].userId !in db.users {
      return Fail(404, "Post author not found");
    }
    r := SaveLike(db, id, userId.value);
  }

  /** The rest of `likePost`: toggle, adjust the author's total, save both. */
  method SaveLike(db: Database, id: Id, liker: Id) returns (r: Response)
    requires db.Valid() && LikeFound(db.State(), id, Some(liker), Up)
    modifies db
    ensures db.Valid()
    ensures Outcome(r, db.State()) == LikePostOutcome(old(db.State()), id, Some(liker), Up)
  {
    ghost var before := db.State();
    ghost var o := LikePostOutcome(before, id, Some(liker), Up);
    var post := db.posts[id];
    var postAuthor := db.users[post.userId];
    var isLiked := liker in post.likes;
    var total;
    if isLiked {
      total := Max(0, postAuthor.totalLikesReceived - 1);
    } else {
      total := postAuthor.totalLikesReceived + 1;
    }
    post := post.(likes := ToggleLike(post.likes, liker));
    post := post.(likesCount := |post.likes|);
    postAuthor := postAuthor.(totalLikesReceived := total);
    if !PostRequiredPresent(post) {
      return Response(500, false, "Server Error", ErrorDetail(PostValidationMessage(post)));
    }
    db.posts := db.posts[id := post];
    assert post == LikedVersion(before.posts[id], liker);
    assert total == AdjustedTotal(before.users[post.userId].totalLikesReceived, isLiked);
    db.users := db.users[post.userId := postAuthor];
    r := Ok(200, LikedPost(post, total));
    assert db.State() == o.after;
  }
  // ------------------------------------------------------------ createPost

  /** The fields of a create request; `userId` is the id string of the author. */
  datatype PostBody = PostBody(
    caption: Option<string>,
    title: Option<string>,
    author: Option<string>,
    userId: Option<string>,
    image: Option<string>)

  predicate AllFieldsGiven(b: PostBody) {
    Truthy(b.caption) && Truthy(b.title) && Truthy(b.author) && Truthy(b.userId) && Truthy(b.image)
  }

  /** The post `createPost` saves for a complete request. */
  function PostFromBody(b: PostBody, newId: Id, now: int): Post
    requires AllFieldsGiven(b)
  {
    NewPost(newId, b.title.value, b.caption.value, b.author.value, b.userId.value, Some(b.image.value), now)
  }

  /** The guards `createPost` runs before it saves: all fields, a well-formed author id, a live store. */
  predicate CreateSaves(b: PostBody, store: StoreStatus) {
    AllFieldsGiven(b) && ValidId(b.userId.value) && store.Up?
  }

  /** `newId` is the id the driver gives the new document. */
  function CreatePostOutcome(s: Snapshot, b: PostBody, newId: Id, now: int, store: StoreStatus): (o: Outcome)
    requires Invariant(s)
    requires ValidId(newId) && newId !in s.posts
    ensures Invariant(o.after)
    ensures !AllFieldsGiven(b) ==> o == Outcome(Fail(400, "Please provide all fields"), s)
    ensures AllFieldsGiven(b) && !ValidId(b.userId.value) ==> o == Outcome(Fail(400, "Invalid user ID format"), s)
    ensures AllFieldsGiven(b) && ValidId(b.userId.value) && store.Down? ==>
              o == Outcome(Fail(500, "Server Error: " + store.message), s)
    ensures CreateSaves(b, store) ==>
              var p := PostFromBody(b, newId, now);
              && o.after.posts == s.posts[newId := p]
              && LikesConsistent(p) && PostRequiredPresent(p)
              && o.after.comments == s.comments
    // the post is saved before its author is looked up: an unknown author leaves it stored
    ensures CreateSaves(b, store) && b.userId.value !in s.users ==>
              o.response == Fail(404, "User not found") && o.after.users == s.users
    ensures CreateSaves(b, store) && b.userId.value in s.users ==>
              var u := s.users[b.userId.value];
              && o.response == Ok(201, OnePost(PostFromBody(b, newId, now)))
              && o.after.users == s.users[b.userId.value := u.(posts := u.posts + [newId])]
    ensures o.response.status == 201 <==> CreateSaves(b, store) && b.userId.value in s.users
  {
    if !AllFieldsGiven(b) then Outcome(Fail(400, "Please provide all fields"), s)
    else if !ValidId(b.userId.value) then Outcome(Fail(400, "Invalid user ID format"), s)
    else if store.Down? then Outcome(Fail(500, "Server Error: " + store.message), s)
    else
      var p := PostFromBody(b, newId, now);
      PutPostKeeps(s.posts, p);
      var saved := s.(posts := s.posts[newId := p]);
      var uid := b.userId.value;
      if uid !in s.users then Outcome(Fail(404, "User not found"), saved)
      else
        var u := s.users[uid];
        ReplaceUserKeeps(s.users, u.(posts := u.posts + [newId]));
        Outcome(Ok(201, OnePost(p)), saved.(users := s.users[uid := u.(posts := u.posts + [newId])]))
  }

  /** `createPost`: validate, save the post, then append its id to the author's `posts`. */
  method CreatePost(db: Database, b: PostBody, newId: Id, now: int, store: StoreStatus) returns (r: Response)
    requires db.Valid()
    requires ValidId(newId) && newId !in db.posts
    modifies db
    ensures db.Valid()
    ensures Outcome(r, db.State()) == CreatePostOutcome(old(db.State()), b, newId, now, store)
  {
    if !Truthy(b.caption) || !Truthy(b.title) || !Truthy(b.author) || !Truthy(b.userId) || !Truthy(b.image) {
      return Fail(400, "Please provide all fields");
    }
    if !ValidId(b.userId.value) {
      return Fail(400, "Invalid user ID format");
    }
    if store.Down? {
      return Fail(500, "Server Error: " + store.message);
    }
    ghost var o := CreatePostOutcome(db.State(), b, newId, now, store);
    var newPost := NewPost(newId, b.title.value, b.caption.value, b.author.value, b.userId.value,
                           Some(b.image.value), now);
    assert newPost == PostFromBody(b, newId, now);
    db.posts := db.posts[newId := newPost];
    if b.userId.value !in db.users {
      assert db.State() == o.after;
      return Fail(404, "User not found");
    }
    var user := db.users[b.userId.value];
    user := user.(posts := user.posts + [newPost.id]);
    db.users := db.users[b.userId.value := user];
    assert db.State() == o.after;
    r := Ok(201, OnePost(newPost));
  }

  // ------------------------------------------------------------ updatePost

  /** The fields an update request may carry; each given field replaces the stored one. */
  datatype PostPatch = PostPatch(
    title: Option<string>,
    image: Option<string>,
    caption: Option<string>,
    author: Option<string>,
    userId: Option<string>,
    likes: Option<seq<string>>,
    likesCount: Option<int>,
    playerName: Option<string>,
    sport: Option<string>,
    teams: Option<string>,
    line: Option<string>,
    overUnder: Option<string>)

  /** The update touches no field. */
  const EmptyPatch := PostPatch(None, None, None, None, None, None, None, None, None, None, None, None)

  /** The store can cast every given id field to an ObjectId. */
  predicate PatchCasts(patch: PostPatch) {
    && (patch.userId.Some? ==> ValidId(patch.userId.value))
    && (patch.likes.Some? ==> forall i :: 0 <= i < |patch.likes.value| ==> ValidId(patch.likes.value[i]))
  }

  function ReplaceIfGiven<T>(given: Option<T>, current: T): T {
    if given.Some? then given.value else current
  }

  /** The stored post after `findByIdAndUpdate(id, body)`: given fields replaced,
      no validators run, id and creation time kept. */
  function ApplyPatch(p: Post, patch: PostPatch): (q: Post)
    ensures q.id == p.id && q.createdAt == p.createdAt
  {
    Post(p.id,
         ReplaceIfGiven(patch.title, p.title),
         if patch.image.Some? then patch.image else p.image,
         ReplaceIfGiven(patch.caption, p.caption),
         ReplaceIfGiven(patch.author, p.author),
         ReplaceIfGiven(patch.userId, p.userId),
         ReplaceIfGiven(patch.likes, p.likes),
         ReplaceIfGiven(patch.likesCount, p.likesCount),
         if patch.playerName.Some? then patch.playerName else p.playerName,
         if patch.sport.Some? then patch.sport else p.sport,
         if patch.teams.Some? then patch.teams else p.teams,
         if patch.line.Some? then patch.line else p.line,
         if patch.overUnder.Some? then patch.overUnder else p.overUnder,
         p.createdAt)
  }

  /** An empty update leaves the post as it is, and applying an update twice is applying it once. */
  lemma PatchLaws(p: Post, patch: PostPatch)
    ensures ApplyPatch(p, EmptyPatch) == p
    ensures ApplyPatch(ApplyPatch(p, patch), patch) == ApplyPatch(p, patch)
  {
  }

  /** There is no ownership check: the requester is not an input of the handler. */
  function UpdatePostOutcome(s: Snapshot, id: string, patch: PostPatch, store: StoreStatus): (o: Outcome)
    requires Invariant(s)
    ensures Invariant(o.after)
    ensures o.after.users == s.users && o.after.comments == s.comments && o.after.posts.Keys == s.posts.Keys
    ensures !ValidId(id) ==> o == Outcome(Fail(404, "Invalid Post ID"), s)
    ensures ValidId(id) && (store.Down? || !PatchCasts(patch)) ==> o == Outcome(Fail(500, "Server Error"), s)
    // a missing post is answered with 200 and `data: null`
    ensures ValidId(id) && store.Up? && PatchCasts(patch) && id !in s.posts ==>
              o == Outcome(Ok(200, MaybePost(None)), s)
    ensures ValidId(id) && store.Up? && PatchCasts(patch) && id in s.posts ==>
              var q := ApplyPatch(s.posts[id], patch);
              o == Outcome(Ok(200, MaybePost(Some(q))), s.(posts := s.posts[id := q]))
  {
    if !ValidId(id) then Outcome(Fail(404, "Invalid Post ID"), s)
    else if store.Down? || !PatchCasts(patch) then Outcome(Fail(500, "Server Error"), s)
    else if id !in s.posts then Outcome(Ok(200, MaybePost(None)), s)
    else
      var q := ApplyPatch(s.posts[id], patch);
      Outcome(Ok(200, MaybePost(Some(q))), s.(posts := s.posts[id := q]))
  }

  /** An update can set a count that no longer matches the like list: the
      consistency that create and like maintain is not kept by update. */
  lemma UpdateCanBreakLikeCount(s: Snapshot, id: Id)
    requires Invariant(s) && id in s.posts && LikesConsistent(s.posts[id])
    ensures var patch := EmptyPatch.(likesCount := Some(|s.posts[id].likes| + 1));
            var o := UpdatePostOutcome(s, id, patch, Up);
            o.response.status == 200 && !LikesConsistent(o.after.posts[id])
  {
  }

  /** An update that empties the title is accepted, and every later like of
      that post fails in `post.save()` and writes nothing. */
  lemma UpdateThenLikeFails(s: Snapshot, id: Id, userId: Id)
    requires Invariant(s) && id in s.posts && s.posts[id].userId in s.users && ValidId(userId)
    ensures var u := UpdatePostOutcome(s, id, EmptyPatch.(title := Some("")), Up);
            var l := LikePostOutcome(u.after, id, Some(userId), Up);
            && u.response.status == 200 && u.after.posts[id].title == ""
            && l.response == Response(500, false, "Server Error",
                                      ErrorDetail(PostValidationMessage(u.after.posts[id])))
            && l.after == u.after
  {
    var u := UpdatePostOutcome(s, id, EmptyPatch.(title := Some("")), Up);
    assert !PostRequiredPresent(u.after.posts[id]);
  }

  /** `updatePost`: replace the given fields of the post with that id. */
  method UpdatePost(db: Database, id: string, patch: PostPatch, store: StoreStatus) returns (r: Response)
    requires db.Valid()
    modifies db
    ensures db.Valid()
    ensures Outcome(r, db.State()) == UpdatePostOutcome(old(db.State()), id, patch, store)
  {
    if !ValidId(id) {
      return Fail(404, "Invalid Post ID");
    }
    if store.Down? || !PatchCasts(patch) {
      return Fail(500, "Server Error");
    }
    if id !in db.posts {
      return Ok(200, MaybePost(None));
    }
    var updatedPost := ApplyPatch(db.posts[id], patch);
    db.posts := db.posts[id := updatedPost];
    r := Ok(200, MaybePost(Some(updatedPost)));
  }

  // ------------------------------------------------------------ deletePost

  /** Every guard of `deletePost` passes and the requester owns the post. */
  predicate DeleteAllowed(s: Snapshot, id: string, userId: Option<string>, store: StoreStatus) {
    ValidId(id) && ValidOptId(userId) && store.Up? && id in s.posts && s.posts[id].userId == userId.value
  }

  /** `userId` is the `userId` query parameter of the request. */
  function DeletePostOutcome(s: Snapshot, id: string, userId: Option<string>, store: StoreStatus): (o: Outcome)
    requires Invariant(s)
    ensures Invariant(o.after)
    ensures o.response.status != 200 ==> o.after == s && !o.response.success
    ensures !ValidId(id) ==> o.response == Fail(400, "Invalid post ID format")
    ensures ValidId(id) && !ValidOptId(userId) ==> o.response == Fail(400, "Invalid user ID format")
    ensures ValidId(id) && ValidOptId(userId) && store.Down? ==> o.response == Fail(500, "Server Error")
    ensures ValidId(id) && ValidOptId(userId) && store.Up? && id !in s.posts ==>
              o.response == Fail(404, "Post not found")
    // a non-owner is refused and neither collection changes
    ensures ValidId(id) && ValidOptId(userId) && store.Up? && id in s.posts && s.posts[id].userId != userId.value ==>
              o.response == Fail(403, "Not authorized to delete this post")
    ensures o.response.status == 200 <==> DeleteAllowed(s, id, userId, store)
    ensures DeleteAllowed(s, id, userId, store) ==>
              && o.response == Done("Post deleted successfully")
              && o.after.posts == s.posts - {id}
              && o.after.comments == s.comments
  {
    if !ValidId(id) then Outcome(Fail(400, "Invalid post ID format"), s)
    else if !ValidOptId(userId) then Outcome(Fail(400, "Invalid user ID format"), s)
    else if store.Down? then Outcome(Fail(500, "Server Error"), s)
    else if id !in s.posts then Outcome(Fail(404, "Post not found"), s)
    else if s.posts[id].userId != userId.value then Outcome(Fail(403, "Not authorized to delete this post"), s)
    else
      var owner := userId.value;
      var users := if owner in s.users then PullPost(s.users, owner, id) else s.users;
      Outcome(Done("Post deleted successfully"), s.(posts := s.posts - {id}, users := users))
  }

  /** `User.findByIdAndUpdate(owner, { $pull: { posts: id } })` on the users collection. */
  function PullPost(users: map<Id, User>, owner: Id, id: Id): (r: map<Id, User>)
    requires UsersOk(users) && owner in users
    ensures UsersOk(r)
    ensures r == users[owner := users[owner].(posts := Without(users[owner].posts, id))]
  {
    var u := users[owner];
    ReplaceUserKeeps(users, u.(posts := Without(u.posts, id)));
    users[owner := u.(posts := Without(u.posts, id))]
  }

  /** What an allowed delete does to the users: nobody but the owner changes,
      and the owner's back-reference list loses the id and keeps every other
      entry, in order. */
  lemma DeletePostEffect(s: Snapshot, id: string, userId: Option<string>, store: StoreStatus)
    requires Invariant(s) && DeleteAllowed(s, id, userId, store)
    ensures var o := DeletePostOutcome(s, id, userId, store);
            var owner := userId.value;
            && o.after.users.Keys == s.users.Keys
            && (forall k :: k in s.users && k != owner ==> o.after.users[k] == s.users[k])
            && (owner in s.users ==>
                  var before := s.users[owner].posts;
                  var after := o.after.users[owner].posts;
                  && o.after.users[owner] == s.users[owner].(posts := after)
                  && id !in after
                  && IsSubsequence(after, before)
                  && (forall x :: x != id ==> multiset(after)[x] == multiset(before)[x]))
  {
  }

  /** `deletePost`: ownership check, then delete the post and `$pull` its id from the owner. */
  method DeletePost(db: Database, id: string, userId: Option<string>, store: StoreStatus) returns (r: Response)
    requires db.Valid()
    modifies db
    ensures db.Valid()
    ensures Outcome(r, db.State()) == DeletePostOutcome(old(db.State()), id, userId, store)
  {
    if !ValidId(id) {
      return Fail(400, "Invalid post ID format");
    }
    if !ValidOptId(userId) {
      return Fail(400, "Invalid user ID format");
    }
    if store.Down? {
      return Fail(500, "Server Error");
    }
    if id !in db.posts {
      return Fail(404, "Post not found");
    }
    var post := db.posts[id];
    if post.userId != userId.value {
      return Fail(403, "Not authorized to delete this post");
    }
    ghost var o := DeletePostOutcome(db.State(), id, userId, store);
    ghost var users := if userId.value in db.users then PullPost(db.users, userId.value, id) else db.users;
    assert o.after == db.State().(posts := db.posts - {id}, users := users);
    db.posts := db.posts - {id};
    if userId.value in db.users {
      var owner := db.users[userId.value];
      owner := owner.(posts := Without(owner.posts, id));
      db.users := db.users[userId.value := owner];
    }
    assert db.users == users;
    r := Done("Post deleted successfully");
  }

  // ------------------------------------------------------------ lookups

  /** `getPostsByUserId`: the author's posts, each once, newest first. */
  method GetPostsByUserId(db: Database, userId: string, store: StoreStatus) returns (r: Response)
    requires db.Valid()
    ensures !ValidId(userId) ==> r == Fail(400, "Invalid user ID format")
    ensures ValidId(userId) && store.Down? ==> r == Fail(500, "Server Error")
    ensures ValidId(userId) && store.Up? ==>
              && r.status == 200 && r.success && r.body.Posts?
              && (forall p :: p in r.body.posts <==> p in db.posts.Values && p.userId == userId)
              && Distinct(r.body.posts)
              && SortedDesc(r.body.posts, (p: Post) => p.createdAt)
  {
    if !ValidId(userId) {
      return Fail(400, "Invalid user ID format");
    }
    if store.Down? {
      return Fail(500, "Server Error");
    }
    var posts := ListWhere(db.posts, (p: Post) => p.userId == userId, (p: Post) => p.createdAt);
    r := Ok(200, Posts(posts));
  }

  /** `getPostById`. */
  method GetPostById(db: Database, id: string, store: StoreStatus) returns (r: Response)
    ensures !ValidId(id) ==> r == Fail(400, "Invalid post ID format")
    ensures ValidId(id) && store.Down? ==> r == Fail(500, "Server Error")
    ensures ValidId(id) && store.Up? && id !in db.posts ==> r == Fail(404, "Post not found")
    ensures ValidId(id) && store.Up? && id in db.posts ==> r == Ok(200, OnePost(db.posts[id]))
  {
    if !ValidId(id) {
      return Fail(400, "Invalid post ID format");
    }
    if store.Down? {
      return Fail(500, "Server Error");
    }
    if id !in db.posts {
      return Fail(404, "Post not found");
    }
    r := Ok(200, OnePost(db.posts[id]));
  }

  /** The errors `getPost` answers with an empty list instead of a 500. */
  predicate ConnectionError(store: StoreStatus) {
    store.Down? && (store.name == "MongooseError" || Contains(store.message, "connection"))
  }

  /** `getPost`: every stored post; an empty list when the store is not connected. */
  method GetPosts(db: Database, store: StoreStatus) returns (r: Response)
    requires db.Valid()
    ensures store.Down? && ConnectionError(store) ==> r == Ok(200, Posts([]))
    ensures store.Down? && !ConnectionError(store) ==> r == Fail(500, "Server Error")
    ensures store.Up? ==>
              && r.status == 200 && r.success && r.body.Posts?
              && (forall p :: p in r.body.posts <==> p in db.posts.Values)
              && Distinct(r.body.posts)
  {
    if store.Down? {
      if ConnectionError(store) {
        return Ok(200, Posts([]));
      }
      return Fail(500, "Server Error");
    }
    var stored := db.posts;
    var ks := KeysWhere(stored, (p: Post) => true);
    var posts := seq(|ks|, i requires 0 <= i < |ks| => stored[ks[i]]);
    forall p | p in stored.Values
      ensures p in posts
    {
      var k :| k in stored && stored[k] == p;
      var i :| 0 <= i < |ks| && ks[i] == k;
      assert posts[i] == p;
    }
    forall i, j | 0 <= i < j < |posts|
      ensures posts[i] != posts[j]
    {
      assert posts[i].id == ks[i] && posts[j].id == ks[j];
    }
    r := Ok(200, Posts(posts));
  }
}
