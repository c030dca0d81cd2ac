/** What a handler answers: an HTTP status and the JSON body `{ success, message, data }`. */
module Http {
  import opened Common
  import opened Models

  /** The `data` part of a reply (or the extra field a reply carries). */
  datatype Body =
    | NoBody
    | OnePost(post: Post)
    | MaybePost(found: Option<Post>)              // `data: null` when nothing matched
    | LikedPost(post: Post, authorTotalLikes: int) // `{ ...post, authorTotalLikes }`
    | Posts(posts: seq<Post>)
    | OneComment(comment: Comment)
    | Comments(comments: seq<Comment>)
    | OneUser(user: User)
    | Users(users: seq<User>)
    | Uploaded(imageUrl: string, key: string)
    | ErrorDetail(error: string)                  // the `error` field of a 500 reply

  datatype Response = Response(status: int, success: bool, message: string, body: Body)

  /** `res.status(status).json({ success: false, message })` */
  function Fail(status: int, message: string): Response {
    Response(status, false, message, NoBody)
  }

  /** `res.status(status).json({ success: true, data })` */
  function Ok(status: int, body: Body): Response {
    Response(status, true, "", body)
  }

  /** `res.status(200).json({ success: true, message })` */
  function Done(message: string): Response {
    Response(200, true, message, NoBody)
  }

  /** Whether the document store answers. `Down(n, m)`: the first awaited store
      call rejects, before anything is written, with an error named `n` whose
      message is `m`. */
  datatype StoreStatus = Up | Down(name: string, message: string)
}

/** The document store as the controllers see it: three collections keyed by id. */
module Store {
  import opened Common
  import opened Models
  import opened Http

  /** The contents of the three collections at one moment. */
  datatype Snapshot = Snapshot(posts: map<Id, Post>, users: map<Id, User>, comments: map<Id, Comment>)

  /** Posts are filed under their own well-formed id and name a well-formed author id. */
  predicate PostsOk(posts: map<Id, Post>) {
    forall k :: k in posts ==> ValidId(k) && posts[k].id == k && ValidId(posts[k].userId)
  }

  /** Users are filed under their own well-formed id, satisfy their schema's
      required fields, and keep the unique indexes on username and email. */
  predicate UsersOk(users: map<Id, User>) {
    && (forall k :: k in users ==>
          ValidId(k) && users[k].id == k && UserRequiredPresent(users[k]))
    && (forall a, b :: a in users && b in users && a != b ==>
          users[a].username != users[b].username && users[a].email != users[b].email)
  }

  /** Comments are filed under their own well-formed id, carry their required
      strings, and name well-formed post and user ids. */
  predicate CommentsOk(comments: map<Id, Comment>) {
    forall k :: k in comments ==>
      ValidId(k) && comments[k].id == k && CommentRequiredPresent(comments[k])
      && ValidId(comments[k].postId) && ValidId(comments[k].userId)
  }

  /** What every stored collection keeps. */
  predicate Invariant(s: Snapshot) {
    PostsOk(s.posts) && UsersOk(s.users) && CommentsOk(s.comments)
  }

  /** Filing a post under its own well-formed id keeps the posts well formed. */
  lemma PutPostKeeps(posts: map<Id, Post>, p: Post)
    requires PostsOk(posts) && ValidId(p.id) && ValidId(p.userId)
    ensures PostsOk(posts[p.id := p])
  {
  }

  /** Replacing a user by one with the same names and valid fields keeps the users well formed. */
  lemma ReplaceUserKeeps(users: map<Id, User>, u: User)
    requires UsersOk(users) && u.id in users
    requires u.username == users[u.id].username && u.email == users[u.id].email
    requires u.password != ""
    ensures UsersOk(users[u.id := u])
  {
    var t := users[u.id := u];
    forall a, b | a in t && b in t && a != b
      ensures t[a].username != t[b].username && t[a].email != t[b].email
    {
      assert t[a].username == users[a].username && t[a].email == users[a].email;
      assert t[b].username == users[b].username && t[b].email == users[b].email;
    }
  }

  /** Adding a valid user whose username and email are both unused keeps the users well formed. */
  lemma AddUserKeeps(users: map<Id, User>, u: User)
    requires UsersOk(users) && ValidId(u.id) && u.id !in users
    requires UserRequiredPresent(u)
    requires forall k :: k in users ==> users[k].username != u.username && users[k].email != u.email
    ensures UsersOk(users[u.id := u])
  {
  }

  /** Filing a comment that passes its validators under its own well-formed id
      keeps the comments well formed. */
  lemma AddCommentKeeps(comments: map<Id, Comment>, c: Comment)
    requires CommentsOk(comments) && ValidId(c.id) && CommentRequiredPresent(c)
    requires ValidId(c.postId) && ValidId(c.userId)
    ensures CommentsOk(comments[c.id := c])
  {
  }

  /** A handler's reply together with the store it leaves behind. */
  datatype Outcome = Outcome(response: Response, after: Snapshot)

  /** The database the backend is connected to. */
  class Database {
    var posts: map<Id, Post>
    var users: map<Id, User>
    var comments: map<Id, Comment>

    function State(): Snapshot
      reads this
    {
      Snapshot(posts, users, comments)
    }

    predicate Valid()
      reads this
    {
      Invariant(State())
    }

    constructor ()
      ensures State() == Snapshot(map[], map[], map[]) && Valid()
    {
      posts, users, comments := map[], map[], map[];
    }
  }
}
