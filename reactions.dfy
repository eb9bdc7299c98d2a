/**
 * The reaction engine: every post and every comment keeps two sets of user
 * ids, the users who like it and the users who dislike it, and the four
 * reaction requests (like, remove-like, dislike, remove-dislike) move one
 * user between them.  The second half shows that the two sets behave exactly
 * like a single per-user vote (up, down or none).
 */
module Reactions {
  import opened Wrappers

  type UserId = int

  /** The `likes` and `dislikes` many-to-many relations of one post or comment. */
  datatype ReactionSets = ReactionSets(likes: set<UserId>, dislikes: set<UserId>)

  /** Why a remove request is refused with 400. */
  datatype Refusal = NotLiked | NotDisliked

  const NoReactions := ReactionSets({}, {})

  /** Nobody both likes and dislikes the same entity. */
  predicate Exclusive(r: ReactionSets) {
    r.likes * r.dislikes == {}
  }

  /** `like`: drop the user from the dislikes if there, then add to the likes. */
  function Like(r: ReactionSets, u: UserId): (r': ReactionSets)
    ensures u in r'.likes && u !in r'.dislikes
    ensures r'.likes - {u} == r.likes - {u} && r'.dislikes - {u} == r.dislikes - {u}
    ensures Exclusive(r) ==> Exclusive(r')
  {
    ReactionSets(r.likes + {u}, r.dislikes - {u})
  }

  /** `dislike`: the mirror image of `like`. */
  function Dislike(r: ReactionSets, u: UserId): (r': ReactionSets)
    ensures u in r'.dislikes && u !in r'.likes
    ensures r'.likes - {u} == r.likes - {u} && r'.dislikes - {u} == r.dislikes - {u}
    ensures Exclusive(r) ==> Exclusive(r')
  {
    ReactionSets(r.likes - {u}, r.dislikes + {u})
  }

  /** `remove-like`: refused unless the user likes the entity; otherwise only that like goes. */
  function RemoveLike(r: ReactionSets, u: UserId): (res: Result<ReactionSets, Refusal>)
    ensures res.Failure? <==> u !in r.likes
    ensures res.Failure? ==> res.error == NotLiked
    ensures res.Success? ==> u !in res.value.likes && res.value.likes + {u} == r.likes
    ensures res.Success? ==> res.value.dislikes == r.dislikes
    ensures res.Success? && Exclusive(r) ==> Exclusive(res.value)
  {
    if u in r.likes then Success(r.(likes := r.likes - {u})) else Failure(NotLiked)
  }

  /** `remove-dislike`: the mirror image of `remove-like`. */
  function RemoveDislike(r: ReactionSets, u: UserId): (res: Result<ReactionSets, Refusal>)
    ensures res.Failure? <==> u !in r.dislikes
    ensures res.Failure? ==> res.error == NotDisliked
    ensures res.Success? ==> u !in res.value.dislikes && res.value.dislikes + {u} == r.dislikes
    ensures res.Success? ==> res.value.likes == r.likes
    ensures res.Success? && Exclusive(r) ==> Exclusive(res.value)
  {
    if u in r.dislikes then Success(r.(dislikes := r.dislikes - {u})) else Failure(NotDisliked)
  }

  /** Liking twice is liking once: adding an existing member is a no-op. */
  lemma LikeIdempotent(r: ReactionSets, u: UserId)
    ensures Like(Like(r, u), u) == Like(r, u)
  {
  }

  lemma DislikeIdempotent(r: ReactionSets, u: UserId)
    ensures Dislike(Dislike(r, u), u) == Dislike(r, u)
  {
  }

  /** Like, then dislike, then like again ends with the user among the likers only. */
  lemma ToggleBack(r: ReactionSets, u: UserId)
    ensures Like(Dislike(Like(r, u), u), u) == Like(r, u)
  {
  }

  /** A user who had not reacted and likes can take the like back, restoring the entity. */
  lemma LikeThenRemoveLike(r: ReactionSets, u: UserId)
    requires u !in r.likes && u !in r.dislikes
    ensures RemoveLike(Like(r, u), u) == Success(r)
  {
    assert r.likes + {u} - {u} == r.likes;
    assert r.dislikes - {u} == r.dislikes;
  }

  lemma DislikeThenRemoveDislike(r: ReactionSets, u: UserId)
    requires u !in r.likes && u !in r.dislikes
    ensures RemoveDislike(Dislike(r, u), u) == Success(r)
  {
    assert r.dislikes + {u} - {u} == r.dislikes;
    assert r.likes - {u} == r.likes;
  }

  /** On a fresh entity, B likes and then dislikes: no likers and exactly one disliker. */
  lemma LikeThenDislikeScenario(b: UserId)
    ensures Dislike(Like(NoReactions, b), b) == ReactionSets({}, {b})
    ensures |Dislike(Like(NoReactions, b), b).likes| == 0
    ensures |Dislike(Like(NoReactions, b), b).dislikes| == 1
  {
  }

  // ---------------------------------------------------------------------
  // One vote per user: the alternative representation of the same state
  // ---------------------------------------------------------------------

  datatype Vote = Up | Down

  /** A user absent from the map has not reacted. */
  type Ballot = map<UserId, Vote>

  /** The vote each user has cast, read off the two sets. */
  function Abstract(r: ReactionSets): (b: Ballot)
    requires Exclusive(r)
    ensures b.Keys == r.likes + r.dislikes
    ensures forall u :: u in b ==> (b[u] == Up <==> u in r.likes)
  {
    map u | u in r.likes + r.dislikes :: if u in r.likes then Up else Down
  }

  /** The two sets a ballot stands for. */
  function Concrete(b: Ballot): (r: ReactionSets)
    ensures Exclusive(r)
    ensures r.likes + r.dislikes == b.Keys
    ensures forall u :: u in r.likes <==> u in b && b[u] == Up
  {
    ReactionSets(set u | u in b && b[u] == Up, set u | u in b && b[u] == Down)
  }

  /** Casting a vote replaces the user's previous one. */
  function Cast(b: Ballot, u: UserId, v: Vote): Ballot {
    b[u := v]
  }

  /** Withdrawing a vote the user has not cast is refused. */
  function Withdraw(b: Ballot, u: UserId, v: Vote, refusal: Refusal): Result<Ballot, Refusal> {
    if u in b && b[u] == v then Success(b - {u}) else Failure(refusal)
  }

  /** Reading the votes off two exclusive sets and turning them back into sets loses nothing. */
  lemma ConcreteOfAbstract(r: ReactionSets)
    requires Exclusive(r)
    ensures Concrete(Abstract(r)) == r
  {
    var c := Concrete(Abstract(r));
    assert c.likes == r.likes;
    forall u | u in r.dislikes ensures u in c.dislikes {
      assert u !in r.likes * r.dislikes;
    }
    assert c.dislikes == r.dislikes;
  }

  lemma AbstractOfConcrete(b: Ballot)
    ensures Abstract(Concrete(b)) == b
  {
    var a := Abstract(Concrete(b));
    forall u | u in a ensures a[u] == b[u] {
      if b[u] == Down {
        assert u !in Concrete(b).likes;
      }
    }
  }

  /** `like` on the sets is casting an up vote. */
  lemma LikeRefines(r: ReactionSets, u: UserId)
    requires Exclusive(r)
    ensures Abstract(Like(r, u)) == Cast(Abstract(r), u, Up)
  {
    var a, c := Abstract(Like(r, u)), Cast(Abstract(r), u, Up);
    assert a.Keys == c.Keys;
    forall v | v in a ensures a[v] == c[v] {
      if v != u {
        assert v in Like(r, u).likes <==> v in r.likes;
      }
    }
  }

  /** `dislike` on the sets is casting a down vote. */
  lemma DislikeRefines(r: ReactionSets, u: UserId)
    requires Exclusive(r)
    ensures Abstract(Dislike(r, u)) == Cast(Abstract(r), u, Down)
  {
    var a, c := Abstract(Dislike(r, u)), Cast(Abstract(r), u, Down);
    assert a.Keys == c.Keys;
    forall v | v in a ensures a[v] == c[v] {
      if v != u {
        assert v in Dislike(r, u).likes <==> v in r.likes;
      }
    }
  }

  /** `remove-like` on the sets is withdrawing an up vote: the same refusals, the same result. */
  lemma RemoveLikeRefines(r: ReactionSets, u: UserId)
    requires Exclusive(r)
    ensures RemoveLike(r, u).Failure? <==> Withdraw(Abstract(r), u, Up, NotLiked).Failure?
    ensures RemoveLike(r, u).Failure? ==> RemoveLike(r, u).error == Withdraw(Abstract(r), u, Up, NotLiked).error
    ensures RemoveLike(r, u).Success? ==>
      Abstract(RemoveLike(r, u).value) == Withdraw(Abstract(r), u, Up, NotLiked).value
  {
    if u in r.likes {
      var a, w := Abstract(RemoveLike(r, u).value), Abstract(r) - {u};
      assert a.Keys == w.Keys;
    }
  }

  /** `remove-dislike` on the sets is withdrawing a down vote. */
  lemma RemoveDislikeRefines(r: ReactionSets, u: UserId)
    requires Exclusive(r)
    ensures RemoveDislike(r, u).Failure? <==> Withdraw(Abstract(r), u, Down, NotDisliked).Failure?
    ensures RemoveDislike(r, u).Failure? ==> RemoveDislike(r, u).error == Withdraw(Abstract(r), u, Down, NotDisliked).error
    ensures RemoveDislike(r, u).Success? ==>
      Abstract(RemoveDislike(r, u).value) == Withdraw(Abstract(r), u, Down, NotDisliked).value
  {
    if u in r.dislikes {
      var a, w := Abstract(RemoveDislike(r, u).value), Abstract(r) - {u};
      assert a.Keys == w.Keys;
    }
  }
}
