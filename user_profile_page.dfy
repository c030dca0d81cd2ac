/** The public profile page `/profile/{username}`: the user's name, their post
    count and their posts, newest first, with like buttons. */
module UserProfilePage {
  import opened Common
  import opened ClientPosts

  /** The fields of the profile the page uses. */
  datatype ProfileUser = ProfileUser(id: string, username: string)

  /** The profile fetch: it threw (with the error's message), answered with a
      status that is not ok, or answered with a JSON body. */
  datatype ProfileReply =
    | ProfileThrew(message: string)
    | ProfileNotOk
    | ProfileAnswered(success: bool, user: Option<ProfileUser>)

  /** The posts fetch, in the same three shapes; a body may carry a message. */
  datatype PostsReply =
    | PostsThrew(message: string)
    | PostsNotOk
    | PostsAnswered(success: bool, posts: seq<ClientPost>, detail: Option<string>)

  predicate ProfileFound(pr: ProfileReply) {
    pr.ProfileAnswered? && pr.success && pr.user.Some?
  }

  predicate PostsFound(qr: PostsReply) {
    qr.PostsAnswered? && qr.success
  }

  function ProfilePath(username: string): string {
    "/api/users/profile/" + username
  }

  function UserPostsPath(userId: string): string {
    "/api/posts/user/" + userId
  }

  /** What the page shows. */
  datatype ProfileView = ProfileView(profileUser: Option<ProfileUser>, posts: seq<ClientPost>,
                                     error: Option<string>, isLoading: bool)

  /** The message a failed load ends with, given that it failed. */
  function LoadError(pr: ProfileReply, qr: PostsReply): (m: string)
    requires !(ProfileFound(pr) && PostsFound(qr))
    ensures pr.ProfileThrew? ==> m == pr.message
    ensures pr.ProfileNotOk? ==> m == "Failed to fetch user profile"
    ensures pr.ProfileAnswered? && !ProfileFound(pr) ==> m == "User not found"
    ensures ProfileFound(pr) && qr.PostsThrew? ==> m == qr.message
    ensures ProfileFound(pr) && qr.PostsNotOk? ==> m == "Failed to fetch user posts"
    ensures ProfileFound(pr) && qr.PostsAnswered? ==>
              m == (if Truthy(qr.detail) then qr.detail.value else "Failed to fetch posts")
  {
    match pr
    case ProfileThrew(message) => message
    case ProfileNotOk => "Failed to fetch user profile"
    case ProfileAnswered(_, _) =>
      if !ProfileFound(pr) then "User not found"
      else
        match qr
        case PostsThrew(message) => message
        case PostsNotOk => "Failed to fetch user posts"
        case PostsAnswered(_, _, detail) => if Truthy(detail) then detail.value else "Failed to fetch posts"
  }

  /** The view after the mount effect for `username`. An empty username loads
      nothing and leaves the page loading. */
  function LoadProfile(v: ProfileView, username: string, pr: ProfileReply, qr: PostsReply): (r: ProfileView)
    ensures username == "" ==> r == v
    ensures username != "" ==> !r.isLoading
    // the page ends without an error exactly when both fetches succeed
    ensures username != "" ==> (r.error.None? <==> ProfileFound(pr) && PostsFound(qr))
    // the name is replaced only by a found profile, and the posts only by a fetched list
    ensures r.profileUser != v.profileUser ==> username != "" && ProfileFound(pr) && r.profileUser == pr.user
    ensures r.posts != v.posts ==> username != "" && ProfileFound(pr) && PostsFound(qr)
    ensures username != "" && ProfileFound(pr) ==> r.profileUser == pr.user
    ensures username != "" && ProfileFound(pr) && PostsFound(qr) ==>
              r.posts == Feed(qr.posts) && AllNormalized(r.posts)
    ensures username != "" && !(ProfileFound(pr) && PostsFound(qr)) ==> r.error == Some(LoadError(pr, qr))
  {
    if username == "" then v
    else if !ProfileFound(pr) then v.(error := Some(LoadError(pr, qr)), isLoading := false)
    else if !PostsFound(qr) then
      v.(profileUser := pr.user, error := Some(LoadError(pr, qr)), isLoading := false)
    else
      FeedContents(qr.posts);
      v.(profileUser := pr.user, posts := Feed(qr.posts), error := None, isLoading := false)
  }

  /** A profile that is not found never leads to a posts request's answer being
      shown: the posts stay as they were and the page reports "User not found". */
  lemma {:induction false} MissingProfileShowsNoPosts(v: ProfileView, username: string, qr: PostsReply, success: bool)
    requires username != ""
    ensures var r := LoadProfile(v, username, ProfileAnswered(success, None), qr);
            r.posts == v.posts && r.error == Some("User not found") && r.profileUser == v.profileUser
  {
  }

  class ProfilePage {
    const currentUser: Option<string>
    /** The `username` route parameter. */
    const username: string
    var profileUser: Option<ProfileUser>
    var posts: seq<ClientPost>
    var error: Option<string>
    var isLoading: bool
    var likingInProgress: map<string, bool>

    function View(): ProfileView
      reads this
    {
      ProfileView(profileUser, posts, error, isLoading)
    }

    predicate Valid()
      reads this
    {
      AllNormalized(posts)
    }

    constructor (currentUser: Option<string>, username: string)
      ensures this.currentUser == currentUser && this.username == username
      ensures View() == ProfileView(None, [], None, true) && likingInProgress == map[] && Valid()
    {
      this.currentUser := currentUser;
      this.username := username;
      profileUser, posts, error, isLoading, likingInProgress := None, [], None, true, map[];
    }

    /** `fetchUserAndPosts`: `requests` are the paths fetched, in order. */
    method Load(pr: ProfileReply, qr: PostsReply) returns (requests: seq<string>)
      requires Valid()
      modifies this
      ensures Valid() && likingInProgress == old(likingInProgress)
      ensures View() == LoadProfile(old(View()), username, pr, qr)
      // the header counts every post of the fetched list, or keeps its count
      ensures TotalPosts() == (if username != "" && ProfileFound(pr) && PostsFound(qr) then |qr.posts|
                               else old(TotalPosts()))
      ensures requests == (if username == "" then []
                           else if ProfileFound(pr) then [ProfilePath(username), UserPostsPath(pr.user.value.id)]
                           else [ProfilePath(username)])
    {
      if username == "" {
        return [];
      }
      isLoading := true;
      error := None;
      requests := [ProfilePath(username)];
      if !ProfileFound(pr) {
        error := Some(LoadError(pr, qr));
      } else {
        profileUser := pr.user;
        requests := requests + [UserPostsPath(pr.user.value.id)];
        if !PostsFound(qr) {
          error := Some(LoadError(pr, qr));
        } else {
          FeedContents(qr.posts);
          posts := Feed(qr.posts);
        }
      }
      isLoading := false;
    }

    /** The header's post count: the number of posts in the shown list. */
    function TotalPosts(): nat
      reads this
    {
      |posts|
    }

    /** The first half of `handleLike`; `snapshot` is the list its closure captured. */
    method StartLike(postId: string) returns (request: Option<LikeRequest>, snapshot: seq<ClientPost>)
      requires Valid()
      modifies this
      ensures Valid() && View() == old(View()) && TotalPosts() == old(TotalPosts())
      ensures snapshot == old(posts)
      ensures Click(request, likingInProgress) == LikeClick(old(likingInProgress), currentUser, postId)
    {
      snapshot := posts;
      var c := LikeClick(likingInProgress, currentUser, postId);
      request, likingInProgress := c.request, c.flags;
    }

    /** The second half of `handleLike`: the reply is merged into the captured
        list, so a reply that arrives after another change overwrites it. */
    method FinishLike(postId: string, snapshot: seq<ClientPost>, reply: LikeReply)
      requires Valid() && AllNormalized(snapshot)
      modifies this
      ensures Valid()
      ensures profileUser == old(profileUser) && error == old(error) && isLoading == old(isLoading)
      ensures posts == (if reply.LikeAnswered? && reply.success then ReplaceById(snapshot, postId, reply.post)
                        else old(posts))
      ensures likingInProgress == LikeSettled(old(likingInProgress), postId)
      // merging a reply into the list the count was taken from keeps the count
      ensures |snapshot| == old(TotalPosts()) ==> TotalPosts() == old(TotalPosts())
    {
      if reply.LikeAnswered? && reply.success {
        ReplaceKeepsNormalized(snapshot, postId, reply.post);
        posts := ReplaceById(snapshot, postId, reply.post);
      }
      likingInProgress := LikeSettled(likingInProgress, postId);
    }
  }
}
