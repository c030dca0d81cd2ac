/** The three document schemas: the record shapes the controllers store, their
    required fields, and the defaults the schemas fill in when a document is created. */
module Models {
  import opened Common
  import opened Collections

  // ------------------------------------------------------------------ Post

  /** A post document. `image` is optional in the schema; the five sports-pick
      strings are optional extras that only a full-document update can set. */
  datatype Post = Post(
    id: Id,
    title: string,
    image: Option<string>,
    caption: string,
    author: string,
    userId: Id,
    likes: seq<Id>,
    likesCount: int,
    playerName: Option<string>,
    sport: Option<string>,
    teams: Option<string>,
    line: Option<string>,
    overUnder: Option<string>,
    createdAt: int)

  /** The post schema's `required` validators: title, caption and author are
      non-empty strings (userId is always set in this representation). */
  predicate PostRequiredPresent(p: Post) {
    p.title != "" && p.caption != "" && p.author != ""
  }

  /** The denormalised like state a post is meant to keep: the count is the
      number of likers and nobody likes a post twice. */
  predicate LikesConsistent(p: Post) {
    p.likesCount == |p.likes| && Distinct(p.likes)
  }

  /** `new Post({...})` with the schema defaults: no likes, a zero count, no
      sports-pick extras, and the creation time as `createdAt`. */
  function NewPost(id: Id, title: string, caption: string, author: string, userId: Id,
                   image: Option<string>, now: int): (p: Post)
    ensures p.likes == [] && p.likesCount == 0 && p.createdAt == now
    ensures p.playerName == p.sport == p.teams == p.line == p.overUnder == None
    ensures LikesConsistent(p)
    ensures p.id == id && p.userId == userId && p.image == image
    ensures (p.title, p.caption, p.author) == (title, caption, author)
  {
    Post(id, title, image, caption, author, userId, [], 0, None, None, None, None, None, now)
  }

  // ------------------------------------------------------------------ User

  /** A user document. `posts` is the back-reference list of authored post ids. */
  datatype User = User(
    id: Id,
    username: string,
    email: string,
    password: string,
    bio: string,
    profileImage: string,
    posts: seq<Id>,
    totalLikesReceived: int,
    createdAt: int)

  /** The user schema's `required` validators on the trimmed values. */
  predicate UserRequiredPresent(u: User) {
    u.username != "" && u.email != "" && u.password != ""
  }

  /** The characters `String.prototype.trim` strips: the ECMAScript white space
      (tab, vertical tab, form feed, U+FEFF and the space separators of category
      Zs) and the four line terminators. */
  predicate IsTrimSpace(c: char) {
    || c == '\t' || c == '\U{B}' || c == '\U{C}' || c == '\U{FEFF}'
    || c == ' ' || c == '\U{A0}' || c == '\U{1680}' || ('\U{2000}' <= c <= '\U{200A}')
    || c == '\U{202F}' || c == '\U{205F}' || c == '\U{3000}'
    || c == '\n' || c == '\r' || c == '\U{2028}' || c == '\U{2029}'
  }

  function TrimStart(s: string): (r: string)
    ensures r == [] || !IsTrimSpace(r[0])
    ensures |r| <= |s| && r == s[|s| - |r|..]
  {
    if s != [] && IsTrimSpace(s[0]) then TrimStart(s[1..]) else s
  }

  function TrimEnd(s: string): (r: string)
    ensures r == [] || !IsTrimSpace(r[|r| - 1])
    ensures |r| <= |s| && r == s[..|r|]
  {
    if s != [] && IsTrimSpace(s[|s| - 1]) then TrimEnd(s[..|s| - 1]) else s
  }

  /** The schema's `trim: true`: leading and trailing white space removed. */
  function Trim(s: string): (r: string)
    ensures r == [] || (!IsTrimSpace(r[0]) && !IsTrimSpace(r[|r| - 1]))
    ensures |r| <= |s|
  {
    TrimEnd(TrimStart(s))
  }

  /** A string without white space at either end is left as it is; in
      particular trimming twice is trimming once. */
  lemma TrimKeeps(s: string)
    requires s == [] || (!IsTrimSpace(s[0]) && !IsTrimSpace(s[|s| - 1]))
    ensures Trim(s) == s
  {
  }

  lemma TrimIdempotent(s: string)
    ensures Trim(Trim(s)) == Trim(s)
  {
    TrimKeeps(Trim(s));
  }

  /** Trimming leaves nothing exactly when the string is all white space. */
  lemma {:induction false} TrimEmptyIff(s: string)
    ensures Trim(s) == "" <==> forall i :: 0 <= i < |s| ==> IsTrimSpace(s[i])
  {
    TrimStartAllSpace(s);
    var t := TrimStart(s);
    if t != [] {
      assert !IsTrimSpace(t[0]);
      TrimEndKeepsNonSpace(t);
    }
  }

  lemma {:induction false} TrimStartAllSpace(s: string)
    ensures TrimStart(s) == "" <==> forall i :: 0 <= i < |s| ==> IsTrimSpace(s[i])
  {
    if s == [] {
    } else if IsTrimSpace(s[0]) {
      var t := s[1..];
      TrimStartAllSpace(t);
      assert TrimStart(s) == TrimStart(t);
      if forall i :: 0 <= i < |t| ==> IsTrimSpace(t[i]) {
        forall i | 0 <= i < |s|
          ensures IsTrimSpace(s[i])
        {
          if i > 0 {
            assert s[i] == t[i - 1];
          }
        }
      } else {
        var i :| 0 <= i < |t| && !IsTrimSpace(t[i]);
        assert s[i + 1] == t[i];
      }
    } else {
      assert TrimStart(s) == s;
    }
  }

  lemma {:induction false} TrimEndKeepsNonSpace(t: string)
    requires t != [] && !IsTrimSpace(t[0])
    ensures TrimEnd(t) != ""
  {
    if IsTrimSpace(t[|t| - 1]) {
      TrimEndKeepsNonSpace(t[..|t| - 1]);
    }
  }

  /** `new User(body)` with the schema's trimming and defaults: every schema
      field the body gives is stored, so a body may preset `posts`,
      `totalLikesReceived` and `createdAt`; the defaults are an empty bio and
      profile image, no posts, no likes received and the creation time. */
  function NewUser(id: Id, username: string, email: string, password: string,
                   bio: Option<string>, profileImage: Option<string>, posts: Option<seq<Id>>,
                   totalLikesReceived: Option<int>, createdAt: Option<int>, now: int): (u: User)
    ensures u.id == id && u.username == Trim(username) && u.email == Trim(email)
    ensures u.password == password
    ensures u.bio == (if bio.Some? then bio.value else "")
    ensures u.profileImage == (if profileImage.Some? then profileImage.value else "")
    ensures u.posts == (if posts.Some? then posts.value else [])
    ensures u.totalLikesReceived == (if totalLikesReceived.Some? then totalLikesReceived.value else 0)
    ensures u.createdAt == (if createdAt.Some? then createdAt.value else now)
    ensures UserRequiredPresent(u) <==> Trim(username) != "" && Trim(email) != "" && password != ""
  {
    User(id, Trim(username), Trim(email), password, bio.GetOr(""), profileImage.GetOr(""),
         posts.GetOr([]), totalLikesReceived.GetOr(0), createdAt.GetOr(now))
  }

  // --------------------------------------------------------------- Comment

  /** A comment document, with the author's name copied in. */
  datatype Comment = Comment(
    id: Id,
    content: string,
    postId: Id,
    userId: Id,
    username: string,
    createdAt: int)

  /** The comment schema's `required` validators on its two strings. */
  predicate CommentRequiredPresent(c: Comment) {
    c.content != "" && c.username != ""
  }

  /** `new Comment({...})`: the given fields and the creation time as
      `createdAt`; it passes the schema's validators exactly when both strings
      are non-empty. */
  function NewComment(id: Id, content: string, postId: Id, userId: Id, username: string,
                      now: int): (c: Comment)
    ensures (c.id, c.postId, c.userId) == (id, postId, userId)
    ensures c.content == content && c.username == username && c.createdAt == now
    ensures CommentRequiredPresent(c) <==> content != "" && username != ""
  {
    Comment(id, content, postId, userId, username, now)
  }
}
