/**
 * The persistent records: users, posts and comments, the reaction relations
 * they carry, the upload-path builders for their images, and what deleting a
 * post takes with it.
 */
module Models {
  import opened Wrappers
  import opened Text
  import opened Reactions

  type PostId = int
  type CommentId = int

  /** What the password hasher stores; the hash itself is not modelled. */
  datatype Credential = Hashed(secret: string)

  /** A user account; `isActive` is false once the account has been soft-deleted. */
  datatype User = User(
    username: string,
    email: string,
    firstName: string,
    lastName: string,
    bio: Option<string>,
    image: Option<string>,
    isStaff: bool,
    isActive: bool,
    credential: Credential)

  /** A post; its `image` is the stored file's URL, treated as an opaque reference. */
  datatype Post = Post(author: UserId, description: string, image: Option<string>, reactions: ReactionSets)

  /** A comment on a post. */
  datatype Comment = Comment(post: PostId, author: UserId, text: string, reactions: ReactionSets)

  /** The reaction relations of one entity point at existing users and exclude each other. */
  predicate SoundReactions(r: ReactionSets, users: map<UserId, User>) {
    Exclusive(r) && r.likes <= users.Keys && r.dislikes <= users.Keys
  }

  /** `username` and `email` are unique columns. */
  predicate UniqueAccounts(users: map<UserId, User>) {
    forall a, b :: a in users && b in users && a != b ==>
      users[a].username != users[b].username && users[a].email != users[b].email
  }

  /** The database's integrity: foreign keys resolve, relations hold existing users, reactions exclude each other. */
  predicate WellFormed(users: map<UserId, User>, posts: map<PostId, Post>, comments: map<CommentId, Comment>) {
    && UniqueAccounts(users)
    && (forall p :: p in posts ==> posts[p].author in users && SoundReactions(posts[p].reactions, users))
    && (forall c :: c in comments ==>
          comments[c].post in posts && comments[c].author in users && SoundReactions(comments[c].reactions, users))
  }

  // ---------------------------------------------------------------------
  // Upload paths
  // ---------------------------------------------------------------------

  /** `f"{instance.id}"`: the decimal id of a saved instance, `None` for an unsaved one. */
  function IdText(id: Option<int>): (r: string)
    ensures |r| > 0 && (id.None? <==> r[0] == 'N')
  {
    match id
    case None => "None"
    case Some(n) => IntToString(n)
  }

  lemma IdTextInjective(a: Option<int>, b: Option<int>)
    requires IdText(a) == IdText(b)
    ensures a == b
  {
    if a.Some? && b.Some? {
      IntToStringInjective(a.value, b.value);
    }
  }

  /** The three segments of an upload path: a five-character prefix, the id, then `/` and the filename. */
  lemma PathSegments(prefix: string, segment: string, filename: string)
    requires |prefix| == 5
    ensures |prefix + segment + "/" + filename| == 6 + |segment| + |filename|
    ensures (prefix + segment + "/" + filename)[..5] == prefix
    ensures (prefix + segment + "/" + filename)[5..5 + |segment|] == segment
    ensures (prefix + segment + "/" + filename)[5 + |segment|..] == "/" + filename
  {
    var r := prefix + segment + "/" + filename;
    assert r == prefix + (segment + ("/" + filename));
  }

  /** Where a user's profile image is stored: `user/<id>/<filename>`. */
  function UserImagePath(id: Option<int>, filename: string): (r: string)
    ensures |r| == 6 + |IdText(id)| + |filename|
    ensures r[..5] == "user/" && r[|r| - |filename| - 1..] == "/" + filename
    ensures r[5..5 + |IdText(id)|] == IdText(id)
  {
    PathSegments("user/", IdText(id), filename);
    "user/" + IdText(id) + "/" + filename
  }

  /** Where a post's image is stored: `post/<id>/<filename>`. */
  function PostImagePath(id: Option<int>, filename: string): (r: string)
    ensures |r| == 6 + |IdText(id)| + |filename|
    ensures r[..5] == "post/" && r[|r| - |filename| - 1..] == "/" + filename
    ensures r[5..5 + |IdText(id)|] == IdText(id)
  {
    PathSegments("post/", IdText(id), filename);
    "post/" + IdText(id) + "/" + filename
  }

  /** For one filename, two different owners never share a user-image path. */
  lemma UserImagePathInjective(a: Option<int>, b: Option<int>, filename: string)
    requires UserImagePath(a, filename) == UserImagePath(b, filename)
    ensures a == b
  {
    assert |IdText(a)| == |IdText(b)|;
    IdTextInjective(a, b);
  }

  lemma PostImagePathInjective(a: Option<int>, b: Option<int>, filename: string)
    requires PostImagePath(a, filename) == PostImagePath(b, filename)
    ensures a == b
  {
    assert |IdText(a)| == |IdText(b)|;
    IdTextInjective(a, b);
  }

  /** A user image and a post image never land on the same path. */
  lemma ImagePathsDisjoint(a: Option<int>, f: string, b: Option<int>, g: string)
    ensures UserImagePath(a, f) != PostImagePath(b, g)
  {
    assert UserImagePath(a, f)[0] == 'u' && PostImagePath(b, g)[0] == 'p';
  }

  /** The saved user 42's `avatar.png` is stored at `user/42/avatar.png`. */
  lemma SavedUserImagePath()
    ensures UserImagePath(Some(42), "avatar.png") == "user/42/avatar.png"
  {
    assert DigitChar(2) == '2' && DigitChar(4) == '4';
    assert NatToString(42) == NatToString(4) + [DigitChar(2)] == "42";
    assert IdText(Some(42)) == "42";
  }

  /** A user not yet saved has no id: the path reads `user/None/avatar.png`. */
  lemma UnsavedUserImagePath()
    ensures UserImagePath(None, "avatar.png") == "user/None/avatar.png"
  {
  }

  /** A negative id keeps its sign: `post/-7/a.jpg`. */
  lemma NegativePostImagePath()
    ensures PostImagePath(Some(-7), "a.jpg") == "post/-7/a.jpg"
  {
    assert DigitChar(7) == '7';
    assert IdText(Some(-7)) == "-" + NatToString(7) == "-7";
  }

  // ---------------------------------------------------------------------
  // Deleting a post
  // ---------------------------------------------------------------------

  /** The comments that survive deleting post `id`: those of other posts. */
  function CommentsOutside(comments: map<CommentId, Comment>, id: PostId): (r: map<CommentId, Comment>)
    ensures forall c :: c in r <==> c in comments && comments[c].post != id
    ensures forall c :: c in r ==> r[c] == comments[c]
  {
    map c | c in comments && comments[c].post != id :: comments[c]
  }

  /** A post deleted along with its comments leaves a database that is still well formed. */
  lemma DeletePostWellFormed(users: map<UserId, User>, posts: map<PostId, Post>, comments: map<CommentId, Comment>, id: PostId)
    requires WellFormed(users, posts, comments)
    ensures WellFormed(users, posts - {id}, CommentsOutside(comments, id))
    ensures forall c :: c in CommentsOutside(comments, id) ==> CommentsOutside(comments, id)[c].post != id
  {
  }

  /** Rewriting one post keeps the database well formed when its author and reactions stay sound. */
  lemma ReplacePostWellFormed(users: map<UserId, User>, posts: map<PostId, Post>, comments: map<CommentId, Comment>, id: PostId, p: Post)
    requires WellFormed(users, posts, comments) && id in posts
    requires p.author in users && SoundReactions(p.reactions, users)
    ensures WellFormed(users, posts[id := p], comments)
  {
  }

  /** Rewriting one comment keeps the database well formed when its post, author and reactions stay sound. */
  lemma ReplaceCommentWellFormed(users: map<UserId, User>, posts: map<PostId, Post>, comments: map<CommentId, Comment>, id: CommentId, c: Comment)
    requires WellFormed(users, posts, comments) && id in comments
    requires c.post in posts && c.author in users && SoundReactions(c.reactions, users)
    ensures WellFormed(users, posts, comments[id := c])
  {
  }
}
