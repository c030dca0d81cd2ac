/** The post lists the client pages keep: posts as the JSON objects the API
    returns, the normalisation of missing like fields, the newest-first order,
    the merge of a like reply into the list, the author filter, the removal
    after a delete, and the "liked by me" test. */
module ClientPosts {
  import opened Common
  import opened Collections

  /** A JSON value as the client receives it (numbers are integers here). */
  datatype Json = JNull | JBool(b: bool) | JNum(n: int) | JStr(s: string) | JArr(items: seq<Json>) | JObj(fields: map<string, Json>)

  /** A post as a JSON object; `{ ...a, ...b }` is the map union `a + b`. */
  type ClientPost = map<string, Json>

  /** JavaScript truthiness of a JSON value. */
  predicate JsTruthy(v: Json) {
    match v
    case JNull => false
    case JBool(b) => b
    case JNum(n) => n != 0
    case JStr(s) => s != ""
    case JArr(_) => true
    case JObj(_) => true
  }

  /** `obj.key || fallback`, a missing key being `undefined`. */
  function Or(obj: ClientPost, key: string, fallback: Json): (v: Json)
    ensures key in obj && JsTruthy(obj[key]) ==> v == obj[key]
    ensures !(key in obj && JsTruthy(obj[key])) ==> v == fallback
  {
    if key in obj && JsTruthy(obj[key]) then obj[key] else fallback
  }

  /** The two like fields every page fills in. */
  predicate Normalized(p: ClientPost) {
    "likes" in p && JsTruthy(p["likes"]) && "likesCount" in p
  }

  /** `{ ...post, likes: post.likes || [], likesCount: post.likesCount || 0 }` */
  function Normalize(p: ClientPost): (q: ClientPost)
    ensures Normalized(q)
    ensures q.Keys == p.Keys + {"likes", "likesCount"}
    ensures forall k :: k in p && k != "likes" && k != "likesCount" ==> q[k] == p[k]
    ensures q["likes"] == Or(p, "likes", JArr([])) && q["likesCount"] == Or(p, "likesCount", JNum(0))
  {
    p["likes" := Or(p, "likes", JArr([]))]["likesCount" := Or(p, "likesCount", JNum(0))]
  }

  /** Normalising keeps a post that already has truthy like fields as it is,
      so normalising twice is normalising once. */
  lemma NormalizeIdempotent(p: ClientPost)
    ensures Normalize(Normalize(p)) == Normalize(p)
    ensures "likes" in p && JsTruthy(p["likes"]) && "likesCount" in p && JsTruthy(p["likesCount"]) ==>
              Normalize(p) == p
  {
    var q := Normalize(p);
    assert Normalize(q).Keys == q.Keys;
    if "likes" in p && JsTruthy(p["likes"]) && "likesCount" in p && JsTruthy(p["likesCount"]) {
      assert q.Keys == p.Keys;
    }
  }

  function NormalizeAll(posts: seq<ClientPost>): (r: seq<ClientPost>)
    ensures |r| == |posts| && forall i :: 0 <= i < |r| ==> r[i] == Normalize(posts[i])
  {
    if posts == [] then [] else [Normalize(posts[0])] + NormalizeAll(posts[1..])
  }

  /** `new Date(post.createdAt)` in milliseconds; a missing or non-numeric date
      counts as 0. */
  function CreatedAt(p: ClientPost): int {
    if "createdAt" in p && p["createdAt"].JNum? then p["createdAt"].n else 0
  }

  /** The list a page shows after fetching: normalised, newest first. */
  function Feed(posts: seq<ClientPost>): (r: seq<ClientPost>)
    ensures multiset(r) == multiset(NormalizeAll(posts)) && |r| == |posts|
    ensures SortedDesc(r, CreatedAt)
  {
    var r := SortDesc(NormalizeAll(posts), CreatedAt);
    assert |multiset(r)| == |multiset(NormalizeAll(posts))|;
    r
  }

  /** The fetched list holds a normalised copy of every fetched post, and nothing else. */
  lemma FeedContents(posts: seq<ClientPost>)
    ensures forall q :: q in Feed(posts) <==> exists i :: 0 <= i < |posts| && q == Normalize(posts[i])
    ensures forall i :: 0 <= i < |Feed(posts)| ==> Normalized(Feed(posts)[i])
  {
    var r := Feed(posts);
    var n := NormalizeAll(posts);
    forall q
      ensures q in r <==> exists i :: 0 <= i < |posts| && q == Normalize(posts[i])
    {
      assert q in r <==> q in multiset(n);
      if q in n {
        var i :| 0 <= i < |n| && n[i] == q;
      }
    }
    forall i | 0 <= i < |r|
      ensures Normalized(r[i])
    {
      assert r[i] in multiset(n);
    }
  }

  // ------------------------------------------------------------ like replies

  /** The updated post a like reply carries, overlaid on the shown post:
      `{ ...post, ...data, likes: data.likes || [], likesCount: data.likesCount || 0 }`.
      The like fields come from the reply alone. */
  function Merge(post: ClientPost, data: ClientPost): (q: ClientPost)
    ensures Normalized(q)
    ensures q.Keys == post.Keys + data.Keys + {"likes", "likesCount"}
    ensures forall k :: k in data && k != "likes" && k != "likesCount" ==> q[k] == data[k]
    ensures forall k :: k in post && k !in data && k != "likes" && k != "likesCount" ==> q[k] == post[k]
    ensures q["likes"] == Or(data, "likes", JArr([])) && q["likesCount"] == Or(data, "likesCount", JNum(0))
  {
    (post + data)["likes" := Or(data, "likes", JArr([]))]["likesCount" := Or(data, "likesCount", JNum(0))]
  }

  /** `post._id === id` */
  predicate HasId(p: ClientPost, id: string) {
    "_id" in p && p["_id"] == JStr(id)
  }

  /** `posts.map(post => post._id === id ? Merge(post, data) : post)` */
  function ReplaceById(posts: seq<ClientPost>, id: string, data: ClientPost): (r: seq<ClientPost>)
    ensures |r| == |posts|
    ensures forall i :: 0 <= i < |r| ==> r[i] == if HasId(posts[i], id) then Merge(posts[i], data) else posts[i]
  {
    if posts == [] then []
    else [if HasId(posts[0], id) then Merge(posts[0], data) else posts[0]] + ReplaceById(posts[1..], id, data)
  }

  /** A merge keeps a normalised list normalised, whatever the reply holds. */
  lemma ReplaceKeepsNormalized(posts: seq<ClientPost>, id: string, data: ClientPost)
    requires forall i :: 0 <= i < |posts| ==> Normalized(posts[i])
    ensures var r := ReplaceById(posts, id, data);
            forall i :: 0 <= i < |r| ==> Normalized(r[i])
  {
  }

  /** When the reply is about the same post (its `_id` is absent or the same),
      the merge keeps every position's identity and leaves all other posts as
      they were, in the same order. */
  lemma ReplaceKeepsList(posts: seq<ClientPost>, id: string, data: ClientPost)
    requires "_id" in data ==> data["_id"] == JStr(id)
    ensures var r := ReplaceById(posts, id, data);
            && (forall i :: 0 <= i < |r| ==> (HasId(r[i], id) <==> HasId(posts[i], id)))
            && Filter(r, (p: ClientPost) => !HasId(p, id)) == Filter(posts, (p: ClientPost) => !HasId(p, id))
  {
    var r := ReplaceById(posts, id, data);
    forall i | 0 <= i < |r|
      ensures HasId(r[i], id) <==> HasId(posts[i], id)
    {
      if HasId(posts[i], id) {
        assert "_id" in r[i];
      }
    }
    ReplaceKeepsOthers(posts, id, data);
  }

  lemma {:induction false} ReplaceKeepsOthers(posts: seq<ClientPost>, id: string, data: ClientPost)
    requires "_id" in data ==> data["_id"] == JStr(id)
    ensures Filter(ReplaceById(posts, id, data), (p: ClientPost) => !HasId(p, id))
            == Filter(posts, (p: ClientPost) => !HasId(p, id))
  {
    if posts != [] {
      var r := ReplaceById(posts, id, data);
      assert r[1..] == ReplaceById(posts[1..], id, data);
      if HasId(posts[0], id) {
        assert HasId(r[0], id);
      }
      ReplaceKeepsOthers(posts[1..], id, data);
    }
  }

  // ------------------------------------------------------------ filters

  /** `posts.filter(post => post.userId === userId)` */
  function ByAuthor(posts: seq<ClientPost>, userId: string): (r: seq<ClientPost>)
    ensures forall p :: p in r <==> p in posts && "userId" in p && p["userId"] == JStr(userId)
    ensures IsSubsequence(r, posts)
  {
    var keep := (p: ClientPost) => "userId" in p && p["userId"] == JStr(userId);
    forall p | p in posts && keep(p)
      ensures p in Filter(posts, keep)
    {
      FilterCount(posts, keep, p);
      assert p in multiset(posts);
    }
    FilterIsSubsequence(posts, keep);
    Filter(posts, keep)
  }

  /** `posts.filter(post => post._id !== id)`: every post with that id goes,
      every other post stays as often as it was there, in the same order. */
  function RemoveById(posts: seq<ClientPost>, id: string): (r: seq<ClientPost>)
    ensures forall i :: 0 <= i < |r| ==> !HasId(r[i], id)
    ensures forall p :: !HasId(p, id) ==> multiset(r)[p] == multiset(posts)[p]
    ensures IsSubsequence(r, posts)
  {
    var keep := (p: ClientPost) => !HasId(p, id);
    forall p | !HasId(p, id)
      ensures multiset(Filter(posts, keep))[p] == multiset(posts)[p]
    {
      FilterCount(posts, keep, p);
    }
    FilterIsSubsequence(posts, keep);
    var r := Filter(posts, keep);
    assert forall i :: 0 <= i < |r| ==> r[i] in r;
    r
  }

  /** Removing an id no post has changes nothing; removing twice is removing once. */
  lemma RemoveLaws(posts: seq<ClientPost>, id: string)
    ensures (forall i :: 0 <= i < |posts| ==> !HasId(posts[i], id)) ==> RemoveById(posts, id) == posts
    ensures RemoveById(RemoveById(posts, id), id) == RemoveById(posts, id)
  {
    var keep := (p: ClientPost) => !HasId(p, id);
    if forall i :: 0 <= i < |posts| ==> !HasId(posts[i], id) {
      assert forall p :: p in posts ==> keep(p);
      FilterAll(posts, keep);
    }
    var r := RemoveById(posts, id);
    assert forall p :: p in r ==> keep(p);
    FilterAll(r, keep);
  }

  // ------------------------------------------------------------ liked by me

  /** `items.some(x => x === v)`, element by element. */
  function AnyEquals(items: seq<Json>, v: Json): bool {
    if items == [] then false else items[0] == v || AnyEquals(items[1..], v)
  }

  lemma {:induction false} SomeIff(items: seq<Json>, v: Json)
    ensures AnyEquals(items, v) <==> v in items
  {
    if items != [] {
      SomeIff(items[1..], v);
      assert items == [items[0]] + items[1..];
    }
  }

  /** `post.likes?.some(likeId => likeId === currentUser?._id)`; without a
      signed-in user the comparison is against `undefined` and never holds. */
  function IsPostLiked(currentUser: Option<string>, p: ClientPost): (liked: bool)
    ensures liked <==> currentUser.Some? && "likes" in p && p["likes"].JArr?
                       && JStr(currentUser.value) in p["likes"].items
  {
    if currentUser.Some? && "likes" in p && p["likes"].JArr? then
      SomeIff(p["likes"].items, JStr(currentUser.value));
      AnyEquals(p["likes"].items, JStr(currentUser.value))
    else false
  }

  // ------------------------------------------------------------ requests and replies

  /** `PUT /api/posts/{id}/like` with body `{ userId }`. */
  datatype LikeRequest = LikeRequest(path: string, userId: string)

  function LikePath(postId: string): string {
    "/api/posts/" + postId + "/like"
  }

  /** The reply to a list fetch: the request threw, or the JSON body arrived. */
  datatype ListReply = ListThrew | ListAnswered(success: bool, posts: seq<ClientPost>)

  /** The reply to a like: the request threw, or the JSON body arrived with the updated post. */
  datatype LikeReply = LikeThrew | LikeAnswered(success: bool, post: ClientPost)

  /** The like flag of a post is set. */
  predicate Flagged(flags: map<string, bool>, postId: string) {
    postId in flags && flags[postId]
  }

  /** Every post of a list has its like fields filled in. */
  predicate AllNormalized(posts: seq<ClientPost>) {
    forall i :: 0 <= i < |posts| ==> Normalized(posts[i])
  }

  /** What a click on a post's like button does before any reply: the request
      it sends, if any, and the like flags afterwards. */
  datatype Click = Click(request: Option<LikeRequest>, flags: map<string, bool>)

  /** The synchronous part of `handleLike`. A click on a post whose flag is set
      is ignored. Otherwise the flag is set; the request then reads
      `currentUser._id`, which throws when nobody is signed in, and the
      `finally` clears the flag without any request having gone out. */
  function LikeClick(flags: map<string, bool>, currentUser: Option<string>, postId: string): (c: Click)
    ensures c.request.Some? ==>
              && currentUser.Some? && !Flagged(flags, postId)
              && c.request.value == LikeRequest(LikePath(postId), currentUser.value)
    ensures forall k :: k != postId ==> (k in c.flags <==> k in flags) && (k in flags ==> c.flags[k] == flags[k])
  {
    if Flagged(flags, postId) then Click(None, flags)
    else if currentUser.None? then Click(None, flags[postId := false])
    else Click(Some(LikeRequest(LikePath(postId), currentUser.value)), flags[postId := true])
  }

  /** The flags once a like request has settled, whatever the reply. */
  function LikeSettled(flags: map<string, bool>, postId: string): (f: map<string, bool>)
    ensures !Flagged(f, postId)
    ensures forall k :: k != postId ==> (k in f <==> k in flags) && (k in flags ==> f[k] == flags[k])
  {
    flags[postId := false]
  }

  /** While a post's like is in flight, further clicks on it send nothing; once
      it has settled, a signed-in user's next click sends a new request. */
  lemma {:induction false} LikeInFlight(flags: map<string, bool>, currentUser: Option<string>, postId: string)
    ensures var c := LikeClick(flags, currentUser, postId);
            && (c.request.Some? <==> currentUser.Some? && !Flagged(flags, postId))
            && (c.request.Some? ==> LikeClick(c.flags, currentUser, postId).request.None?)
            && (c.request.Some? ==> LikeClick(LikeSettled(c.flags, postId), currentUser, postId) == c)
  {
    var c := LikeClick(flags, currentUser, postId);
    if c.request.Some? {
      assert Flagged(c.flags, postId);
      var f := LikeSettled(c.flags, postId);
      assert f[postId := true] == c.flags;
    }
  }
}
