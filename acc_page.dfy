/** The account page: the signed-in user's own posts, with like and delete
    buttons; without a signed-in user it sends the visitor to the login page. */
module AccPage {
  import opened Common
  import opened ClientPosts

  class AccountPage {
    /** The signed-in user's `_id`, if anyone is signed in. */
    const currentUser: Option<string>
    var userPosts: seq<ClientPost>
    var isLoading: bool
    var likingInProgress: map<string, bool>
    /** Where the page navigated to, if it did. */
    var redirectedTo: Option<string>

    predicate Valid()
      reads this
    {
      AllNormalized(userPosts)
    }

    constructor (currentUser: Option<string>)
      ensures this.currentUser == currentUser
      ensures userPosts == [] && isLoading && likingInProgress == map[] && redirectedTo.None? && Valid()
    {
      this.currentUser := currentUser;
      userPosts, isLoading, likingInProgress, redirectedTo := [], true, map[], None;
    }

    /** The mount effect. Without a signed-in user: go to `/login`, fetch
        nothing (the page renders nothing). Otherwise fetch all posts and keep
        the user's own, normalised and newest first; stop loading on every path. */
    method Mount(reply: ListReply) returns (fetched: bool)
      requires Valid()
      modifies this
      ensures Valid() && likingInProgress == old(likingInProgress)
      ensures fetched <==> currentUser.Some?
      ensures currentUser.None? ==>
                redirectedTo == Some("/login") && userPosts == old(userPosts) && isLoading == old(isLoading)
      ensures currentUser.Some? ==>
                && redirectedTo == old(redirectedTo) && !isLoading
                && userPosts == (if reply.ListAnswered? && reply.success
                                 then Feed(ByAuthor(reply.posts, currentUser.value)) else old(userPosts))
    {
      if currentUser.None? {
        redirectedTo := Some("/login");
        return false;
      }
      fetched := true;
      if reply.ListAnswered? && reply.success {
        var filteredPosts := Feed(ByAuthor(reply.posts, currentUser.value));
        FeedContents(ByAuthor(reply.posts, currentUser.value));
        userPosts := filteredPosts;
      }
      isLoading := false;
    }

    /** The first half of `handleLike`. */
    method StartLike(postId: string) returns (request: Option<LikeRequest>)
      requires Valid()
      modifies this
      ensures Valid() && userPosts == old(userPosts) && isLoading == old(isLoading) && redirectedTo == old(redirectedTo)
      ensures Click(request, likingInProgress) == LikeClick(old(likingInProgress), currentUser, postId)
    {
      var c := LikeClick(likingInProgress, currentUser, postId);
      request, likingInProgress := c.request, c.flags;
    }

    /** The second half of `handleLike`: the functional update merges the reply
        into the list as it is when the reply arrives. */
    method FinishLike(postId: string, reply: LikeReply)
      requires Valid()
      modifies this
      ensures Valid() && isLoading == old(isLoading) && redirectedTo == old(redirectedTo)
      ensures userPosts == (if reply.LikeAnswered? && reply.success
                            then ReplaceById(old(userPosts), postId, reply.post) else old(userPosts))
      ensures likingInProgress == LikeSettled(old(likingInProgress), postId)
    {
      if reply.LikeAnswered? && reply.success {
        ReplaceKeepsNormalized(userPosts, postId, reply.post);
        userPosts := ReplaceById(userPosts, postId, reply.post);
      }
      likingInProgress := LikeSettled(likingInProgress, postId);
    }

    /** The list update of `handleDelete`: a successful reply removes the posts
        with that id. */
    method HandleDelete(postId: string, success: bool)
      requires Valid()
      modifies this
      ensures Valid() && isLoading == old(isLoading) && redirectedTo == old(redirectedTo)
      ensures likingInProgress == old(likingInProgress)
      ensures userPosts == (if success then RemoveById(old(userPosts), postId) else old(userPosts))
    {
      if success {
        var kept := RemoveById(userPosts, postId);
        assert forall i :: 0 <= i < |kept| ==> kept[i] in userPosts by {
          assert forall p :: p in kept ==> p in multiset(userPosts);
        }
        userPosts := kept;
      }
    }
  }
}
