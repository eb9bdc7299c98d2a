/** The read paths: user listing and retrieval, post retrieval and listing, user search. */
module Queries {
  import opened Wrappers
  import opened Text
  import opened Reactions
  import opened Models
  import opened Ordering
  import opened Responses

  /** `UserViewSet.get_queryset` / `list`: the users whose account is active. */
  function ActiveUsers(users: map<UserId, User>): (r: set<UserId>)
    ensures r <= users.Keys
    ensures forall id :: id in r <==> id in users && users[id].isActive
  {
    set id | id in users && users[id].isActive
  }

  /** `UserViewSet.retrieve`: an active user by id, otherwise 404. */
  function RetrieveUser(users: map<UserId, User>, id: UserId): (r: Result<User, Status>)
    ensures r.Success? <==> id in ActiveUsers(users)
    ensures r.Success? ==> r.value == users[id]
    ensures r.Failure? ==> r.error == NotFound
  {
    if id in users && users[id].isActive then Success(users[id]) else Failure(NotFound)
  }

  /** `PostViewSet.retrieve` (`get_object_or_404`): any post by id, otherwise 404. */
  function RetrievePost(posts: map<PostId, Post>, id: PostId): (r: Result<Post, Status>)
    ensures r.Success? <==> id in posts
    ensures r.Success? ==> r.value == posts[id]
    ensures r.Failure? ==> r.error == NotFound
  {
    if id in posts then Success(posts[id]) else Failure(NotFound)
  }

  /** `PostViewSet.list` before pagination: every post, newest first. */
  ghost function ListPosts(posts: map<PostId, Post>): (r: seq<PostId>)
    ensures |r| == |posts|
    ensures forall id :: id in r <==> id in posts
    ensures StrictlyDecreasing(r)
  {
    NewestFirst(posts.Keys)
  }

  /** `username__icontains`, `first_name__icontains` or `last_name__icontains`. */
  predicate MatchesSearch(u: User, term: string) {
    || Contains(Lower(u.username), Lower(term))
    || Contains(Lower(u.firstName), Lower(term))
    || Contains(Lower(u.lastName), Lower(term))
  }

  /** `SearchUserView`: every user, active or not, matching the term (before pagination). */
  function SearchUsers(users: map<UserId, User>, term: string): (r: set<UserId>)
    ensures r <= users.Keys
    ensures forall id :: id in r <==> id in users && MatchesSearch(users[id], term)
  {
    set id | id in users && MatchesSearch(users[id], term)
  }

  /** The search does not care about the case of the term. */
  lemma SearchIgnoresCase(users: map<UserId, User>, term: string)
    ensures SearchUsers(users, Lower(term)) == SearchUsers(users, term)
  {
    LowerIdempotent(term);
  }

  /** An empty term matches every user. */
  lemma EmptySearchFindsAll(users: map<UserId, User>)
    ensures SearchUsers(users, "") == users.Keys
  {
    forall id | id in users ensures MatchesSearch(users[id], "") {
      ContainsEmpty(Lower(users[id].username));
    }
  }
}
