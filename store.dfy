/**
 * The views that change the database: the eight reaction views, post update
 * and destroy, user destroy (a soft delete) and password change.  The
 * database is one object holding the three tables; each view is a method
 * that looks the row up, applies the gate, and rewrites the row in place.
 */
module Store {
  import opened Wrappers
  import opened Fields
  import opened Reactions
  import opened Models
  import opened Serializers
  import opened Gate
  import opened Queries
  import opened Responses

  /** The body of a post update request. */
  datatype PostForm = PostForm(description: Option<string>, image: Option<string>)

  /** The request asks to keep the current image: no `image`, an empty one, or the text `None`. */
  predicate KeepsImage(sent: Option<string>) {
    sent.None? || sent == Some("") || sent == Some("None")
  }

  /** The image an update is meant to leave on the post. */
  function ImageToSave(current: Option<string>, sent: Option<string>): (r: Option<string>)
    ensures KeepsImage(sent) ==> r == current
    ensures !KeepsImage(sent) ==> r == sent
  {
    if KeepsImage(sent) then current else sent
  }

  /**
   * The post as the update saves it in the source: the serializer treats
   * `image` as a read-only field, so only the description changes.
   */
  function UpdatedPostAsWritten(post: Post, description: string, sent: Option<string>): (p: Post)
    ensures p.author == post.author && p.reactions == post.reactions && p.description == description
    ensures p.image == post.image
  {
    post.(description := description)
  }

  /** A new image sent with an update is dropped. */
  lemma NewImageDropped(post: Post, description: string)
    requires post.image.None?
    ensures UpdatedPostAsWritten(post, description, Some("new.png")).image == None
    ensures ImageToSave(post.image, Some("new.png")) == Some("new.png")
  {
  }

  /** The post as the update is meant to save it: new description, image replaced unless kept. */
  function UpdatedPost(post: Post, description: string, sent: Option<string>): (p: Post)
    ensures p.author == post.author && p.reactions == post.reactions && p.description == description
    ensures p.image == ImageToSave(post.image, sent)
    ensures KeepsImage(sent) ==> p == UpdatedPostAsWritten(post, description, sent)
  {
    post.(description := description, image := ImageToSave(post.image, sent))
  }

  /** The soft delete: the account stays, marked inactive. */
  function Deactivate(users: map<UserId, User>, id: UserId): (r: map<UserId, User>)
    requires id in users
    ensures r.Keys == users.Keys
    ensures !r[id].isActive
    ensures r[id] == users[id].(isActive := false)
    ensures forall other :: other in users && other != id ==> r[other] == users[other]
  {
    users[id := users[id].(isActive := false)]
  }

  /**
   * After a soft delete the user no longer lists or retrieves, but the record
   * is still there for the lookups that do not filter on activity.
   */
  lemma DeactivatedUserHidden(users: map<UserId, User>, id: UserId)
    requires id in users
    ensures id in Deactivate(users, id)
    ensures ActiveUsers(Deactivate(users, id)) == ActiveUsers(users) - {id}
    ensures RetrieveUser(Deactivate(users, id), id) == Failure(NotFound)
  {
    var after := Deactivate(users, id);
    assert forall u :: u in ActiveUsers(after) <==> u in ActiveUsers(users) - {id};
  }

  /** Deactivation keeps the database well formed, so authored posts and comments keep their author. */
  lemma DeactivationKeepsContent(users: map<UserId, User>, posts: map<PostId, Post>, comments: map<CommentId, Comment>, id: UserId)
    requires WellFormed(users, posts, comments) && id in users
    ensures WellFormed(Deactivate(users, id), posts, comments)
    ensures forall p :: p in posts ==> RetrievePost(posts, p) == Success(posts[p]) && posts[p].author in Deactivate(users, id)
  {
    var after := Deactivate(users, id);
    forall a, b | a in after && b in after && a != b
      ensures after[a].username != after[b].username && after[a].email != after[b].email
    {
      assert after[a].username == users[a].username && after[a].email == users[a].email;
      assert after[b].username == users[b].username && after[b].email == users[b].email;
    }
  }

  /** The search does not filter on activity: deactivated users are still found. */
  lemma SearchStillFindsDeactivated(users: map<UserId, User>, id: UserId, term: string)
    requires id in users
    ensures SearchUsers(Deactivate(users, id), term) == SearchUsers(users, term)
  {
    var after := Deactivate(users, id);
    assert forall u :: u in after ==> MatchesSearch(after[u], term) == MatchesSearch(users[u], term);
  }

  /** The database: the user, post and comment tables, keyed by id. */
  class Database {
    var users: map<UserId, User>
    var posts: map<PostId, Post>
    var comments: map<CommentId, Comment>

    ghost predicate Valid()
      reads this
    {
      WellFormed(users, posts, comments)
    }

    constructor (users0: map<UserId, User>, posts0: map<PostId, Post>, comments0: map<CommentId, Comment>)
      requires WellFormed(users0, posts0, comments0)
      ensures Valid()
      ensures users == users0 && posts == posts0 && comments == comments0
    {
      users, posts, comments := users0, posts0, comments0;
    }

    // -------------------------------------------------------------------
    // Post reactions
    // -------------------------------------------------------------------

    /** `PostLikeView.post` */
    method LikePost(postId: PostId, actor: UserId) returns (status: Status)
      requires Valid() && actor in users
      modifies this
      ensures Valid()
      ensures users == old(users) && comments == old(comments)
      ensures postId !in old(posts) ==> status == NotFound && posts == old(posts)
      ensures postId in old(posts) ==> (status == Ok &&
        posts == old(posts)[postId := old(posts)[postId].(reactions := Like(old(posts)[postId].reactions, actor))])
    {
      if postId !in posts {
        return NotFound;
      }
      var post := posts[postId];
      var r := post.reactions;
      if actor in r.dislikes {
        r := r.(dislikes := r.dislikes - {actor});
      } else {
        assert r.dislikes - {actor} == r.dislikes;
      }
      r := r.(likes := r.likes + {actor});
      assert r == Like(post.reactions, actor);
      ReplacePostWellFormed(users, posts, comments, postId, post.(reactions := r));
      posts := posts[postId := post.(reactions := r)];
      status := Ok;
    }

    /** `PostRemoveLikeView.delete` */
    method RemoveLikePost(postId: PostId, actor: UserId) returns (status: Status)
      requires Valid() && actor in users
      modifies this
      ensures Valid()
      ensures users == old(users) && comments == old(comments)
      ensures postId !in old(posts) ==> status == NotFound && posts == old(posts)
      ensures postId in old(posts) ==>
        match RemoveLike(old(posts)[postId].reactions, actor)
        case Failure(_) => status == BadRequest && posts == old(posts)
        case Success(r) => status == Ok && posts == old(posts)[postId := old(posts)[postId].(reactions := r)]
    {
      if postId !in posts {
        return NotFound;
      }
      var post := posts[postId];
      if actor in post.reactions.likes {
        var r := post.reactions.(likes := post.reactions.likes - {actor});
        ReplacePostWellFormed(users, posts, comments, postId, post.(reactions := r));
        posts := posts[postId := post.(reactions := r)];
        status := Ok;
      } else {
        status := BadRequest;
      }
    }

    /** `PostDislikeView.post` */
    method DislikePost(postId: PostId, actor: UserId) returns (status: Status)
      requires Valid() && actor in users
      modifies this
      ensures Valid()
      ensures users == old(users) && comments == old(comments)
      ensures postId !in old(posts) ==> status == NotFound && posts == old(posts)
      ensures postId in old(posts) ==> (status == Ok &&
        posts == old(posts)[postId := old(posts)[postId].(reactions := Dislike(old(posts)[postId].reactions, actor))])
    {
      if postId !in posts {
        return NotFound;
      }
      var post := posts[postId];
      var r := post.reactions;
      if actor in r.likes {
        r := r.(likes := r.likes - {actor});
      } else {
        assert r.likes - {actor} == r.likes;
      }
      r := r.(dislikes := r.dislikes + {actor});
      assert r == Dislike(post.reactions, actor);
      ReplacePostWellFormed(users, posts, comments, postId, post.(reactions := r));
      posts := posts[postId := post.(reactions := r)];
      status := Ok;
    }

    /** `PostRemoveDislikeView.delete` */
    method RemoveDislikePost(postId: PostId, actor: UserId) returns (status: Status)
      requires Valid() && actor in users
      modifies this
      ensures Valid()
      ensures users == old(users) && comments == old(comments)
      ensures postId !in old(posts) ==> status == NotFound && posts == old(posts)
      ensures postId in old(posts) ==>
        match RemoveDislike(old(posts)[postId].reactions, actor)
        case Failure(_) => status == BadRequest && posts == old(posts)
        case Success(r) => status == Ok && posts == old(posts)[postId := old(posts)[postId].(reactions := r)]
    {
      if postId !in posts {
        return NotFound;
      }
      var post := posts[postId];
      if actor in post.reactions.dislikes {
        var r := post.reactions.(dislikes := post.reactions.dislikes - {actor});
        ReplacePostWellFormed(users, posts, comments, postId, post.(reactions := r));
        posts := posts[postId := post.(reactions := r)];
        status := Ok;
      } else {
        status := BadRequest;
      }
    }

    // -------------------------------------------------------------------
    // Comment reactions
    // -------------------------------------------------------------------

    /** `CommentLikeView.post` */
    method LikeComment(commentId: CommentId, actor: UserId) returns (status: Status)
      requires Valid() && actor in users
      modifies this
      ensures Valid()
      ensures users == old(users) && posts == old(posts)
      ensures commentId !in old(comments) ==> status == NotFound && comments == old(comments)
      ensures commentId in old(comments) ==> (status == Ok &&
        comments == old(comments)[commentId := old(comments)[commentId].(reactions := Like(old(comments)[commentId].reactions, actor))])
    {
      if commentId !in comments {
        return NotFound;
      }
      var comment := comments[commentId];
      var r := comment.reactions;
      if actor in r.dislikes {
        r := r.(dislikes := r.dislikes - {actor});
      } else {
        assert r.dislikes - {actor} == r.dislikes;
      }
      r := r.(likes := r.likes + {actor});
      assert r == Like(comment.reactions, actor);
      ReplaceCommentWellFormed(users, posts, comments, commentId, comment.(reactions := r));
      comments := comments[commentId := comment.(reactions := r)];
      status := Ok;
    }

    /** `CommentRemoveLikeView.delete` */
    method RemoveLikeComment(commentId: CommentId, actor: UserId) returns (status: Status)
      requires Valid() && actor in users
      modifies this
      ensures Valid()
      ensures users == old(users) && posts == old(posts)
      ensures commentId !in old(comments) ==> status == NotFound && comments == old(comments)
      ensures commentId in old(comments) ==>
        match RemoveLike(old(comments)[commentId].reactions, actor)
        case Failure(_) => status == BadRequest && comments == old(comments)
        case Success(r) => status == Ok && comments == old(comments)[commentId := old(comments)[commentId].(reactions := r)]
    {
      if commentId !in comments {
        return NotFound;
      }
      var comment := comments[commentId];
      if actor in comment.reactions.likes {
        var r := comment.reactions.(likes := comment.reactions.likes - {actor});
        ReplaceCommentWellFormed(users, posts, comments, commentId, comment.(reactions := r));
        comments := comments[commentId := comment.(reactions := r)];
        status := Ok;
      } else {
        status := BadRequest;
      }
    }

    /** `CommentDislikeView.post` */
    method DislikeComment(commentId: CommentId, actor: UserId) returns (status: Status)
      requires Valid() && actor in users
      modifies this
      ensures Valid()
      ensures users == old(users) && posts == old(posts)
      ensures commentId !in old(comments) ==> status == NotFound && comments == old(comments)
      ensures commentId in old(comments) ==> (status == Ok &&
        comments == old(comments)[commentId := old(comments)[commentId].(reactions := Dislike(old(comments)[commentId].reactions, actor))])
    {
      if commentId !in comments {
        return NotFound;
      }
      var comment := comments[commentId];
      var r := comment.reactions;
      if actor in r.likes {
        r := r.(likes := r.likes - {actor});
      } else {
        assert r.likes - {actor} == r.likes;
      }
      r := r.(dislikes := r.dislikes + {actor});
      assert r == Dislike(comment.reactions, actor);
      ReplaceCommentWellFormed(users, posts, comments, commentId, comment.(reactions := r));
      comments := comments[commentId := comment.(reactions := r)];
      status := Ok;
    }

    /** `CommentRemoveDislikeView.delete` */
    method RemoveDislikeComment(commentId: CommentId, actor: UserId) returns (status: Status)
      requires Valid() && actor in users
      modifies this
      ensures Valid()
      ensures users == old(users) && posts == old(posts)
      ensures commentId !in old(comments) ==> status == NotFound && comments == old(comments)
      ensures commentId in old(comments) ==>
        match RemoveDislike(old(comments)[commentId].reactions, actor)
        case Failure(_) => status == BadRequest && comments == old(comments)
        case Success(r) => status == Ok && comments == old(comments)[commentId := old(comments)[commentId].(reactions := r)]
    {
      if commentId !in comments {
        return NotFound;
      }
      var comment := comments[commentId];
      if actor in comment.reactions.dislikes {
        var r := comment.reactions.(dislikes := comment.reactions.dislikes - {actor});
        ReplaceCommentWellFormed(users, posts, comments, commentId, comment.(reactions := r));
        comments := comments[commentId := comment.(reactions := r)];
        status := Ok;
      } else {
        status := BadRequest;
      }
    }

    // -------------------------------------------------------------------
    // Post update and destroy
    // -------------------------------------------------------------------

    /** `PostViewSet.update` */
    method UpdatePost(actor: UserId, id: PostId, form: PostForm) returns (status: Status)
      requires Valid() && actor in users
      modifies this
      ensures Valid()
      ensures users == old(users) && comments == old(comments)
      ensures id !in old(posts) ==> status == NotFound && posts == old(posts)
      ensures id in old(posts) && !IsOwner(actor, old(users)[actor], old(posts)[id].author) ==>
        status == Unauthorized && posts == old(posts)
      ensures id in old(posts) && IsOwner(actor, old(users)[actor], old(posts)[id].author) ==>
        match CleanText(form.description, 0, AnyText)
        case Failure(_) => status == BadRequest && posts == old(posts)
        case Success(d) => status == Ok && posts == old(posts)[id := UpdatedPost(old(posts)[id], d, form.image)]
    {
      if id !in posts {
        return NotFound;
      }
      var post := posts[id];
      if !IsOwner(actor, users[actor], post.author) {
        return Unauthorized;
      }
      var image := ImageToSave(post.image, form.image);
      var description := CleanText(form.description, 0, AnyText);
      if description.Failure? {
        return BadRequest;
      }
      var updated := post.(description := description.value, image := image);
      ReplacePostWellFormed(users, posts, comments, id, updated);
      posts := posts[id := updated];
      status := Ok;
    }

    /** `PostViewSet.destroy`: the post goes, and its comments with it. */
    method DestroyPost(actor: UserId, id: PostId) returns (status: Status)
      requires Valid() && actor in users
      modifies this
      ensures Valid()
      ensures users == old(users)
      ensures id !in old(posts) ==> status == NotFound && posts == old(posts) && comments == old(comments)
      ensures id in old(posts) && !IsOwner(actor, old(users)[actor], old(posts)[id].author) ==>
        status == Unauthorized && posts == old(posts) && comments == old(comments)
      ensures id in old(posts) && IsOwner(actor, old(users)[actor], old(posts)[id].author) ==>
        status == Ok && posts == old(posts) - {id} && comments == CommentsOutside(old(comments), id)
    {
      if id !in posts {
        return NotFound;
      }
      if !IsOwner(actor, users[actor], posts[id].author) {
        return Unauthorized;
      }
      DeletePostWellFormed(users, posts, comments, id);
      posts := posts - {id};
      comments := CommentsOutside(comments, id);
      status := Ok;
    }

    // -------------------------------------------------------------------
    // User destroy and password change
    // -------------------------------------------------------------------

    /** `UserViewSet.destroy` behind `staff_required`: a soft delete. */
    method DestroyUser(actor: UserId, id: UserId) returns (status: Status)
      requires Valid() && actor in users
      modifies this
      ensures Valid()
      ensures posts == old(posts) && comments == old(comments)
      ensures !StaffRequired(old(users)[actor]) ==> status == Unauthorized && users == old(users)
      ensures StaffRequired(old(users)[actor]) && id !in old(users) ==> status == NotFound && users == old(users)
      ensures StaffRequired(old(users)[actor]) && id in old(users) ==> status == Ok && users == Deactivate(old(users), id)
    {
      if !StaffRequired(users[actor]) {
        return Unauthorized;
      }
      if id !in users {
        return NotFound;
      }
      DeactivationKeepsContent(users, posts, comments, id);
      var user := users[id];
      user := user.(isActive := false);
      users := users[id := user];
      status := Ok;
    }

    /** `UserViewSet.change_password`: reaches any stored user, active or not. */
    method ChangePassword(id: UserId, form: PasswordForm) returns (status: Status)
      requires Valid()
      modifies this
      ensures Valid()
      ensures posts == old(posts) && comments == old(comments)
      ensures id !in old(users) ==> status == NotFound && users == old(users)
      ensures id in old(users) ==>
        match CheckPasswordChange(form)
        case Failure(_) => status == BadRequest && users == old(users)
        case Success(d) => status == Ok && users == old(users)[id := old(users)[id].(credential := Hashed(d.password1))]
    {
      if id !in users {
        return NotFound;
      }
      var checked := CheckPasswordChange(form);
      if checked.Failure? {
        return BadRequest;
      }
      var user := users[id];
      users := users[id := user.(credential := Hashed(checked.value.password1))];
      assert forall u :: u in users ==> users[u].username == old(users)[u].username && users[u].email == old(users)[u].email;
      status := Ok;
    }
  }
}
