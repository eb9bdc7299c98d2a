/**
 * The serializers of the original backend that carry logic: the
 * password-change form, the lists of usernames that render a post's or a
 * comment's reactions, and the URLs rendered for a post's image and its author's image.
 */
module Serializers {
  import opened Wrappers
  import opened Text
  import opened Fields
  import opened Reactions
  import opened Models
  import opened Ordering

  // ---------------------------------------------------------------------
  // ChangePasswordSerializer
  // ---------------------------------------------------------------------

  /** The request body of a password change, each field possibly missing. */
  datatype PasswordForm = PasswordForm(password1: Option<string>, password2: Option<string>)

  /** The validated data of a password change. */
  datatype PasswordPair = PasswordPair(password1: string, password2: string)

  /** `validate`: a mismatch is a non-field error; matching data is passed on unchanged. */
  function ValidatePasswordChange(d: PasswordPair): (r: Result<PasswordPair, Invalid>)
    ensures r.Success? <==> d.password1 == d.password2
    ensures r.Success? ==> r.value == d
    ensures r.Failure? ==> r.error == Invalid({NonFieldErrors})
  {
    if d.password1 != d.password2 then Failure(Invalid({NonFieldErrors})) else Success(d)
  }

  /**
   * `is_valid()`: both fields are required text of at least five characters
   * after stripping, with no NUL character; only when both are clean is
   * `validate` consulted.
   */
  function CheckPasswordChange(f: PasswordForm): (r: Result<PasswordPair, Invalid>)
    ensures r.Success? <==>
      && f.password1.Some? && f.password2.Some?
      && |Trim(f.password1.value)| >= 5
      && '\0' !in Trim(f.password1.value)
      && Trim(f.password1.value) == Trim(f.password2.value)
    ensures r.Success? ==> r.value.password1 == r.value.password2 == Trim(f.password1.value)
    ensures r.Failure? ==> ("password1" in r.error.fields <==> CleanText(f.password1, 5, AnyText).Failure?)
    ensures r.Failure? ==> ("password2" in r.error.fields <==> CleanText(f.password2, 5, AnyText).Failure?)
    ensures r.Failure? ==> (NonFieldErrors in r.error.fields <==>
      CleanText(f.password1, 5, AnyText).Success? && CleanText(f.password2, 5, AnyText).Success?)
  {
    var p1 := CleanText(f.password1, 5, AnyText);
    var p2 := CleanText(f.password2, 5, AnyText);
    if p1.Failure? || p2.Failure? then
      Failure(Invalid(FailedFields("password1", p1) + FailedFields("password2", p2)))
    else
      ValidatePasswordChange(PasswordPair(p1.value, p2.value))
  }

  /** Matching passwords with a NUL character are refused on both fields, before `validate` runs. */
  lemma NullCharacterPasswordRefused()
    ensures CheckPasswordChange(PasswordForm(Some("ab\0cd"), Some("ab\0cd"))) == Failure(Invalid({"password1", "password2"}))
  {
    var p := "ab\0cd";
    assert TrimStart(p) == p && TrimEnd(p) == p;
    assert p[2] == '\0';
    assert CleanText(Some(p), 5, AnyText) == Failure(NullCharacter);
    assert {"password1"} + {"password2"} == {"password1", "password2"};
    assert PasswordForm(Some(p), Some(p)) == PasswordForm(Some("ab\0cd"), Some("ab\0cd"));
  }

  // ---------------------------------------------------------------------
  // get_likes, get_dislikes, get_comment_likes, get_comment_dislikes
  // ---------------------------------------------------------------------

  /**
   * The usernames of the members of one reaction relation. The database
   * returns them in no promised order; the model lists them by descending
   * user id.
   */
  ghost function Usernames(members: set<UserId>, users: map<UserId, User>): (names: seq<string>)
    requires members <= users.Keys
    ensures |names| == |members|
  {
    var ids := NewestFirst(members);
    seq(|ids|, i requires 0 <= i < |ids| => users[ids[i]].username)
  }

  /** Every member's username is listed, and every listed name is a member's. */
  lemma UsernamesExact(members: set<UserId>, users: map<UserId, User>)
    requires members <= users.Keys
    ensures forall u :: u in members ==> users[u].username in Usernames(members, users)
    ensures forall i :: 0 <= i < |Usernames(members, users)| ==>
      exists u :: u in members && Usernames(members, users)[i] == users[u].username
  {
    var ids := NewestFirst(members);
    var names := Usernames(members, users);
    forall u | u in members ensures users[u].username in names {
      var i :| 0 <= i < |ids| && ids[i] == u;
      assert names[i] == users[u].username;
    }
    forall i | 0 <= i < |names| ensures exists u :: u in members && names[i] == users[u].username {
      assert ids[i] in ids;
      assert ids[i] in members && names[i] == users[ids[i]].username;
    }
  }

  /** With unique usernames, no name is listed twice: one entry per member. */
  lemma UsernamesDistinct(members: set<UserId>, users: map<UserId, User>)
    requires members <= users.Keys && UniqueAccounts(users)
    ensures forall i, j :: 0 <= i < j < |Usernames(members, users)| ==>
      Usernames(members, users)[i] != Usernames(members, users)[j]
  {
    var ids := NewestFirst(members);
    var names := Usernames(members, users);
    forall i, j | 0 <= i < j < |names| ensures names[i] != names[j] {
      assert ids[i] > ids[j];
      assert ids[i] in ids && ids[j] in ids;
    }
  }

  // ---------------------------------------------------------------------
  // PostSerializer.get_image
  // ---------------------------------------------------------------------

  const LocalHost := "http://localhost:8000"

  /** Reading the URL of an image field with no file raises ValueError. */
  datatype Crash = ValueError

  /**
   * `get_image` as the source has it: the URL with the development host
   * removed, read without checking that the post has an image at all.
   */
  function ImageUrlAsWritten(image: Option<string>): (r: Result<string, Crash>)
    ensures r.Failure? <==> image.None?
    ensures r.Success? ==> |r.value| <= |image.value|
  {
    match image
    case None => Failure(ValueError)
    case Some(url) => Success(RemoveAll(url, LocalHost))
  }

  /** Rendering a post that has no image fails. */
  lemma ImagelessPostCrashes()
    ensures ImageUrlAsWritten(None) == Failure(ValueError)
  {
  }

  /** `get_image` with the guard the source keeps commented out: no image renders as no URL. */
  function ImageUrl(image: Option<string>): (r: Option<string>)
    ensures r.None? <==> image.None?
    ensures r.Some? ==> |r.value| <= |image.value|
    ensures image.Some? ==> ImageUrlAsWritten(image) == Success(r.value)
  {
    match image
    case None => None
    case Some(url) => Some(RemoveAll(url, LocalHost))
  }

  /** A URL that does not mention the development host is rendered unchanged. */
  lemma ImageUrlKeepsOtherUrls(url: string)
    requires !Contains(url, LocalHost)
    ensures ImageUrl(Some(url)) == Some(url)
  {
    RemoveAllAbsent(url, LocalHost);
  }

  /** A URL on the development host is rendered as the bare path. */
  lemma ImageUrlStripsHost(path: string)
    requires !Contains(path, LocalHost)
    ensures ImageUrl(Some(LocalHost + path)) == Some(path)
  {
    RemoveAllLeading(LocalHost, path);
    RemoveAllAbsent(path, LocalHost);
  }

  // ---------------------------------------------------------------------
  // author_image on PostSerializer and CommentSerializer
  // ---------------------------------------------------------------------

  /**
   * `author_image` as the source declares it: the URL of the author's image,
   * read without checking that the author has one.
   */
  function AuthorImageAsWritten(image: Option<string>): (r: Result<string, Crash>)
    ensures r.Failure? <==> image.None?
    ensures r.Success? ==> r.value == image.value
  {
    match image
    case None => Failure(ValueError)
    case Some(url) => Success(url)
  }

  /** Rendering a post or comment whose author has no image fails. */
  lemma ImagelessAuthorCrashes()
    ensures AuthorImageAsWritten(None) == Failure(ValueError)
  {
  }

  /** `author_image` with the guard the source keeps commented out: an author without an image renders as no URL. */
  function AuthorImage(image: Option<string>): (r: Option<string>)
    ensures r.None? <==> image.None?
    ensures image.Some? ==> AuthorImageAsWritten(image) == Success(r.value)
  {
    match image
    case None => None
    case Some(url) => Some(url)
  }
}
