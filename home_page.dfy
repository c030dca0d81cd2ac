/** The home feed: every post, newest first, with a like button per post that
    ignores clicks while that post's like is in flight. */
module HomePage {
  import opened Common
  import opened ClientPosts

  class HomeFeed {
    /** The signed-in user's `_id`, if anyone is signed in. */
    const currentUser: Option<string>
    var posts: seq<ClientPost>
    var isLoading: bool
    var likingInProgress: map<string, bool>

    /** Every shown post has its like fields. */
    predicate Valid()
      reads this
    {
      AllNormalized(posts)
    }

    constructor (currentUser: Option<string>)
      ensures this.currentUser == currentUser
      ensures posts == [] && isLoading && likingInProgress == map[] && Valid()
    {
      this.currentUser := currentUser;
      posts, isLoading, likingInProgress := [], true, map[];
    }

    /** `fetchPosts` on mount: show the normalised, sorted list on success;
        stop loading on every path. */
    method FetchPosts(reply: ListReply)
      requires Valid()
      modifies this
      ensures Valid()
      ensures posts == (if reply.ListAnswered? && reply.success then Feed(reply.posts) else old(posts))
      ensures !isLoading && likingInProgress == old(likingInProgress)
    {
      if reply.ListAnswered? && reply.success {
        FeedContents(reply.posts);
        posts := Feed(reply.posts);
      }
      isLoading := false;
    }

    /** The first half of `handleLike`, up to the request. A click while the
        post's flag is set does nothing. Otherwise the flag is set and the
        request sent; with nobody signed in, reading `currentUser._id` throws
        and the `finally` clears the flag again. `snapshot` is the list the
        handler's closure captured. */
    method StartLike(postId: string) returns (request: Option<LikeRequest>, snapshot: seq<ClientPost>)
      requires Valid()
      modifies this
      ensures Valid() && posts == old(posts) && isLoading == old(isLoading)
      ensures snapshot == old(posts)
      ensures Click(request, likingInProgress) == LikeClick(old(likingInProgress), currentUser, postId)
    {
      snapshot := posts;
      var c := LikeClick(likingInProgress, currentUser, postId);
      request, likingInProgress := c.request, c.flags;
    }

    /** The second half of `handleLike`: on success the reply is merged into the
        captured `snapshot` (not the current list), then the flag is cleared. */
    method FinishLike(postId: string, snapshot: seq<ClientPost>, reply: LikeReply)
      requires Valid() && AllNormalized(snapshot)
      modifies this
      ensures Valid() && isLoading == old(isLoading)
      ensures posts == (if reply.LikeAnswered? && reply.success then ReplaceById(snapshot, postId, reply.post)
                        else old(posts))
      ensures likingInProgress == LikeSettled(old(likingInProgress), postId)
    {
      if reply.LikeAnswered? && reply.success {
        ReplaceKeepsNormalized(snapshot, postId, reply.post);
        posts := ReplaceById(snapshot, postId, reply.post);
      }
      likingInProgress := LikeSettled(likingInProgress, postId);
    }
  }
}
