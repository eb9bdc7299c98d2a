# Social feed backend — a verified model of its core

The system is a Django REST backend for a small social network. Users
write posts, comment on posts, and like or dislike posts and comments.
Staff can soft-delete accounts. Anyone can search users by name. A
second, smaller backend adds a sign-up serializer.

This Dafny project models:

- the reaction engine. It covers the eight views that like, dislike,
  remove a like from, or remove a dislike from a post or a comment.
  Each is modelled as pure set logic (`Reactions`) and as a method
  that updates a stored row in place (`Store.Database`).
- the two authorization gates, `is_owner` and `staff_required`
  (`Gate`). These are predicates with no contract of their own. Their
  meaning is stated in the contracts of the methods they guard.
- post update, post destroy (with the cascade to its comments), and
  post list in `-id` order.
- the user queryset restricted to active accounts, user retrieve, the
  soft-delete destroy, and password change. Password change reaches
  inactive accounts too.
- the user search predicate, case-insensitive on username, first name
  and last name.
- `ChangePasswordSerializer` and `RegisterSerializer`. The model covers
  field presence, blank, whitespace trimming, minimum length and the NUL-character validator, then
  `validate`, then the record that `create` saves.
- the serializer fields that list reacting usernames, and the
  post-image URL.
- the upload-path builders `user_image` and `post_image`.

Modules, with dependencies first:

| module | file |
|---|---|
| `Wrappers` | `wrappers.dfy` |
| `Text` | `text.dfy` |
| `Fields` | `fields.dfy` |
| `Reactions` | `reactions.dfy` |
| `Models` | `models.dfy` |
| `Ordering` | `ordering.dfy` |
| `Serializers` | `serializers.dfy` |
| `Registration` | `registration.dfy` |
| `Responses` | `responses.dfy` |
| `Gate` | `gate.dfy` |
| `Queries` | `queries.dfy` |
| `Store` | `store.dfy` |

The database is the class `Store.Database`. It holds three maps: users,
posts and comments, keyed by id. Its invariant `Valid()` is
`Models.WellFormed`, which requires all of the following:

- every foreign key resolves;
- every reaction relation holds existing users only;
- the likes and the dislikes of one entity never share a user;
- usernames and emails are unique.

Every view method keeps this invariant. Each one states the whole new
state, including the status it returns (200, 400, 401 or 404).

## Model

| member | source | states |
|---|---|---|
| Reactions.Like | backend_original/userapp/views.py:269-279 | After a like the user is among the likers and not among the dislikers. No other user's reactions change. A like keeps likes and dislikes disjoint. |
| Reactions.Dislike | backend_original/userapp/views.py:294-304 | This is the mirror image of `Like`. After a dislike the user is among the dislikers and not among the likers. No other user's reactions change. Disjointness is kept. |
| Reactions.RemoveLike | backend_original/userapp/views.py:281-291 | The request is refused with "not liked" exactly when the user does not like the entity. Otherwise only that user's like is removed. The dislikes are unchanged. |
| Reactions.RemoveDislike | backend_original/userapp/views.py:306-316 | The request is refused with "not disliked" exactly when the user does not dislike the entity. Otherwise only that user's dislike is removed. The likes are unchanged. |
| Reactions.LikeIdempotent | backend_original/userapp/views.py:269-279 | Liking twice has the same effect as liking once. |
| Reactions.DislikeIdempotent | backend_original/userapp/views.py:294-304 | Disliking twice has the same effect as disliking once. |
| Reactions.ToggleBack | backend_original/userapp/views.py:269-304 | Like, then dislike, then like again has the same effect as a single like. |
| Reactions.LikeThenRemoveLike | backend_original/userapp/views.py:269-291 | Suppose the user had not reacted. A like followed by removing it succeeds and restores exactly the previous state. |
| Reactions.DislikeThenRemoveDislike | backend_original/userapp/views.py:294-316 | This is the mirror image of `LikeThenRemoveLike` for dislikes. |
| Reactions.LikeThenDislikeScenario | backend_original/userapp/views.py:269-304 | Take one user and a fresh entity. After a like, then a dislike, there are no likers and exactly one disliker, that user. |
| Reactions.Abstract | backend_original/userapp/models.py:37-39 | Disjoint likes and dislikes read as one vote per user. A user who likes gets an up vote, and a user who dislikes gets a down vote. |
| Reactions.Concrete | backend_original/userapp/models.py:37-39 | A vote per user becomes two disjoint relations. Up votes become likes, and down votes become dislikes. |
| Reactions.ConcreteOfAbstract | backend_original/userapp/models.py:37-39 | Two disjoint relations, read as votes and back, are unchanged. |
| Reactions.AbstractOfConcrete | backend_original/userapp/models.py:37-39 | Votes, turned into relations and back, are unchanged. |
| Reactions.LikeRefines | backend_original/userapp/views.py:269-279 | A like is the same as casting an up vote, which replaces any earlier vote. |
| Reactions.DislikeRefines | backend_original/userapp/views.py:294-304 | A dislike is the same as casting a down vote. |
| Reactions.RemoveLikeRefines | backend_original/userapp/views.py:281-291 | Removing a like is the same as withdrawing an up vote. When there is no up vote to withdraw, both refuse with the same error. |
| Reactions.RemoveDislikeRefines | backend_original/userapp/views.py:306-316 | Removing a dislike is the same as withdrawing a down vote. When there is no down vote, both refuse with the same error. |
| Store.Database.LikePost | backend_original/userapp/views.py:269-279 | An unknown post gives 404 and changes nothing. Otherwise the result is 200, and the post's reactions become `Like` of the old ones. Nothing else changes, and the invariant holds. |
| Store.Database.RemoveLikePost | backend_original/userapp/views.py:281-291 | An unknown post gives 404. A user who has not liked the post gets 400 and nothing changes. Otherwise the result is 200, and the reactions become the result of `RemoveLike`. The invariant holds. |
| Store.Database.DislikePost | backend_original/userapp/views.py:294-304 | An unknown post gives 404. Otherwise the result is 200, and the reactions become `Dislike` of the old ones. Nothing else changes. |
| Store.Database.RemoveDislikePost | backend_original/userapp/views.py:306-316 | An unknown post gives 404. A user who has not disliked the post gets 400. Otherwise the result is 200 with the result of `RemoveDislike`. |
| Store.Database.LikeComment | backend_original/userapp/views.py:354-363 | An unknown comment gives 404. Otherwise the result is 200, and the comment's reactions become `Like` of the old ones. Nothing else changes. |
| Store.Database.RemoveLikeComment | backend_original/userapp/views.py:365-375 | An unknown comment gives 404. A user who has not liked the comment gets 400. Otherwise the result is 200 with the result of `RemoveLike`. |
| Store.Database.DislikeComment | backend_original/userapp/views.py:377-386 | An unknown comment gives 404. Otherwise the result is 200, and the comment's reactions become `Dislike` of the old ones. |
| Store.Database.RemoveDislikeComment | backend_original/userapp/views.py:388-398 | An unknown comment gives 404. A user who has not disliked the comment gets 400. Otherwise the result is 200 with the result of `RemoveDislike`. |
| Store.Database.UpdatePost | backend_original/userapp/views.py:203-225 | The checks run in this order: 404 for an unknown post, then 401 unless the requester is the author or staff (`is_owner`, lines 165-166), then 400 when the description is missing, blank or contains a NUL character. Otherwise the result is 200, and the post gets the trimmed description and the image `ImageToSave` chooses. Author and reactions are kept. The saved image is the intended one (`UpdatedPost`), and the 200 assumes the saved post renders (see Left out). As written, the source never changes the image; that behaviour is `UpdatedPostAsWritten` (see Findings). |
| Store.Database.DestroyPost | backend_original/userapp/views.py:242-248 | An unknown post gives 404. A requester who is neither the author nor staff gets 401. Otherwise the post is removed, together with exactly the comments on it. |
| Store.Database.DestroyUser | backend_original/userapp/views.py:82-90 | A requester who is not staff gets 401 before any lookup (`staff_required`, lines 27-33). An unknown id gives 404. Otherwise the result is 200, and the account is only marked inactive. Posts and comments are unchanged. |
| Store.Database.ChangePassword | backend_original/userapp/views.py:92-101 | An unknown id gives 404. The id may belong to an inactive account. Invalid data (as `CheckPasswordChange` decides, including a NUL character) gives 400 and changes nothing. Otherwise the result is 200, the stored credential becomes the hash of the new password, and nothing else changes. |
| Store.KeepsImage | backend_original/userapp/views.py:208 | The predicate's body is the rule: the image is kept when it is absent, empty or the text `None`. |
| Store.ImageToSave | backend_original/userapp/views.py:208-211 | When no image is sent, or the sent image is empty or the text `None`, the current image is kept. Otherwise the sent image is used. |
| Store.UpdatedPostAsWritten | backend_original/userapp/serializers.py:59 | As the serializer behaves, an update changes only the description. The read-only `image` field keeps the old image. |
| Store.NewImageDropped | backend_original/userapp/views.py:219-220 | Take a post without an image and a request that sends `new.png`. The saved post still has no image, although the view means to store `new.png`. |
| Store.UpdatedPost | backend_original/userapp/views.py:203-225 | The new description is applied, and the image is the one `ImageToSave` picks. Author and reactions are kept. When the image is kept, the result agrees with the as-written update. |
| Store.Deactivate | backend_original/userapp/views.py:86-88 | Only the target's `is_active` flag changes. Every id and every other user is unchanged. |
| Store.DeactivatedUserHidden | backend_original/userapp/views.py:38-43 | After the soft delete the account is still stored. It leaves the active set, which loses exactly that id, and retrieving it gives 404. |
| Store.DeactivationKeepsContent | backend_original/userapp/views.py:82-90 | A soft delete keeps the database well formed. Every post is still retrievable and its author still exists. No cascade happens. |
| Store.SearchStillFindsDeactivated | backend_original/userapp/views.py:130-137 | A soft delete does not change any search result, because the search does not filter on `is_active`. |
| Models.IdText | backend_original/userapp/models.py:4-5 | The id is printed as text. The result begins with `N` exactly when the instance is unsaved and the id prints as `None`. |
| Models.IdTextInjective | backend_original/userapp/models.py:4-5 | Different ids print differently. |
| Models.UserImagePath | backend_original/userapp/models.py:4-5 | The path is `user/`, then the id, then `/`, then the filename. The length is exact. |
| Models.PostImagePath | backend_original/userapp/models.py:28-29 | The path is `post/`, then the id, then `/`, then the filename. The length is exact. |
| Models.PathSegments | backend_original/userapp/models.py:4-5 | An upload path splits into exactly three parts: the five-character prefix, the id text, and `/` followed by the filename. |
| Models.UserImagePathInjective | backend_original/userapp/models.py:4-5 | For one filename, two user-image paths are equal only for the same id. |
| Models.PostImagePathInjective | backend_original/userapp/models.py:28-29 | For one filename, two post-image paths are equal only for the same id. |
| Models.ImagePathsDisjoint | backend_original/userapp/models.py:4-29 | A user-image path never equals a post-image path. |
| Models.SavedUserImagePath | backend_original/userapp/models.py:4-5 | The saved user 42's `avatar.png` is stored at `user/42/avatar.png`. |
| Models.UnsavedUserImagePath | backend_original/userapp/models.py:4-5 | An unsaved user has no id, so the path reads `user/None/avatar.png`. |
| Models.NegativePostImagePath | backend_original/userapp/models.py:28-29 | The path keeps the minus sign of a negative id: `post/-7/a.jpg`. |
| Models.CommentsOutside | backend_original/userapp/models.py:57-58 | The comments that survive a post's deletion are exactly those on other posts, with their contents unchanged. |
| Models.DeletePostWellFormed | backend_original/userapp/models.py:36-58 | Deleting a post together with its comments leaves no dangling foreign key, and the database stays well formed. |
| Models.ReplacePostWellFormed | backend_original/userapp/models.py:31-39 | Rewriting one post keeps the database well formed, provided its author exists and its reactions are sound. |
| Models.ReplaceCommentWellFormed | backend_original/userapp/models.py:57-64 | Rewriting one comment keeps the database well formed, provided its post and author exist and its reactions are sound. |
| Gate.IsOwner | backend_original/userapp/views.py:165-166 | The predicate's body is the rule: the requester is the author, or the requester is staff. |
| Gate.StaffRequired | backend_original/userapp/views.py:27-33 | The predicate's body is the rule: only a staff requester passes. |
| Queries.ActiveUsers | backend_original/userapp/views.py:38-43 | The set holds exactly the stored users whose account is active. |
| Queries.RetrieveUser | backend_original/userapp/views.py:74-80 | A user is found exactly when they are stored and active, and the stored record is returned. Otherwise the result is 404. |
| Queries.RetrievePost | backend_original/userapp/views.py:198-201 | A post is found exactly when it is stored, and the stored record is returned. Otherwise the result is 404. |
| Queries.ListPosts | backend_original/userapp/views.py:182-188 | Every post is listed exactly once, with ids strictly decreasing. |
| Queries.MatchesSearch | backend_original/userapp/views.py:133-137 | The predicate's body is the rule: the lower-cased username, first name or last name contains the lower-cased term. |
| Queries.SearchUsers | backend_original/userapp/views.py:130-137 | The result holds exactly the users, active or not, whose username, first name or last name contains the term, ignoring case. |
| Queries.SearchIgnoresCase | backend_original/userapp/views.py:133-137 | A lower-cased term finds the same users as the original term. |
| Queries.EmptySearchFindsAll | backend_original/userapp/views.py:133-137 | The empty term finds every stored user. |
| Ordering.Largest | backend_original/userapp/views.py:183 | The largest id of a non-empty set is a member of the set, and no member is larger. |
| Ordering.NewestFirst | backend_original/userapp/views.py:183 | The ids of a set are listed in descending order, each exactly once. |
| Ordering.HeadIsLargest | backend_original/userapp/views.py:183 | The first element of a strictly decreasing list is its maximum. |
| Ordering.TailListsRest | backend_original/userapp/views.py:183 | Without its head, a strictly decreasing list of a set lists the rest of the set. |
| Ordering.NewestFirstUnique | backend_original/userapp/views.py:183 | Only one strictly decreasing list holds exactly a given set. So the `-id` order determines the listing. |
| Serializers.ValidatePasswordChange | backend_original/userapp/serializers.py:117-121 | The data is accepted exactly when the two passwords are equal, and it is then passed on unchanged. Otherwise the result is a non-field error. |
| Serializers.CheckPasswordChange | backend_original/userapp/serializers.py:113-121 | The data is accepted exactly when both fields are present and the stripped first password is at least 5 characters, contains no NUL character and equals the stripped second. Errors are keyed on each failing field. The non-field error appears only when both fields are clean. |
| Serializers.NullCharacterPasswordRefused | backend_original/userapp/serializers.py:114-115 | Matching passwords `ab\0cd` are refused with an error on both fields, and `validate` is not reached. |
| Serializers.Usernames | backend_original/userapp/serializers.py:71-76 | One username is listed per reacting user. |
| Serializers.UsernamesExact | backend_original/userapp/serializers.py:27-31 | Every reacting user's username is listed, and every listed name belongs to a reacting user. |
| Serializers.UsernamesDistinct | backend_original/userapp/serializers.py:71-76 | With unique usernames, no name is listed twice. |
| Serializers.ImageUrlAsWritten | backend_original/userapp/serializers.py:80-81 | A post without an image raises an error. Otherwise the URL with the development host removed is no longer than the stored URL. |
| Serializers.ImagelessPostCrashes | backend_original/userapp/serializers.py:80-81 | Rendering a post that has no image fails with `ValueError`. |
| Serializers.ImageUrl | backend_original/userapp/serializers.py:80-82 | No image renders as no URL. An image renders as the as-written URL. |
| Serializers.ImageUrlKeepsOtherUrls | backend_original/userapp/serializers.py:81 | A URL that does not mention the development host is rendered unchanged. |
| Serializers.ImageUrlStripsHost | backend_original/userapp/serializers.py:81 | The development host followed by a path renders as the bare path. |
| Serializers.AuthorImageAsWritten | backend_original/userapp/serializers.py:51 | An author without an image raises an error. Otherwise the author's image URL is returned unchanged. The comment serializer declares the same field at line 20. |
| Serializers.ImagelessAuthorCrashes | backend_original/userapp/serializers.py:20 | Rendering a post or comment whose author has no image fails with `ValueError`. |
| Serializers.AuthorImage | backend_original/userapp/serializers.py:67-68 | An author without an image renders as no URL, as the commented-out guard has it. An image renders as the as-written URL. |
| Registration.ValidateSignUp | backend/userapp/serializers.py:42-47 | The data is accepted exactly when the password and its confirmation are equal, and it is then passed on unchanged. Otherwise the error is keyed on `password`. |
| Registration.CheckSignUp | backend/userapp/serializers.py:33-47 | The data is accepted exactly when all of the following hold: email and username are present and not blank; the stripped password has at least 5 characters, contains no NUL character and passes the password policy; and it equals the stripped confirmation. Field errors take precedence over the mismatch error. |
| Registration.CreateAccount | backend/userapp/serializers.py:49-59 | The saved account has the submitted username and email and the hash of the password. |
| Registration.ConfirmationNotStored | backend/userapp/serializers.py:49-59 | The confirmation field has no effect on the saved account. |
| Registration.AcceptedSignUpAccount | backend/userapp/serializers.py:33-59 | An accepted sign-up saves the typed username and email, and the password that was typed twice, after stripping. |
| Fields.CleanText | backend_original/userapp/serializers.py:113-115 | A text field succeeds exactly when all of the following hold: the value is present; the stripped value is not blank, is at least the minimum length, contains no NUL character (the validator every text field carries) and passes the field's extra validators. A missing value is a "required" error. A success yields the stripped value. |
| Fields.CleanTextIdempotent | backend_original/userapp/serializers.py:113-115 | Cleaning an already-cleaned value gives the same value. |
| Text.Trim | backend_original/userapp/serializers.py:114-115 | The result is never longer than the input. When it is not empty, it begins and ends with non-whitespace. `TrimStart` and `TrimEnd` state that only whitespace was dropped. |
| Text.TrimEmptyIffBlank | backend_original/userapp/serializers.py:114-115 | The stripped value is empty exactly when the input is all whitespace. |
| Text.TrimIdempotent | backend_original/userapp/serializers.py:114-115 | Stripping twice gives the same result as stripping once. |
| Text.Contains | backend_original/userapp/views.py:133-137 | The predicate's body is the rule: the needle occurs at some position of the haystack, the empty needle included. This is the substring test of `icontains`. |
| Text.Lower | backend_original/userapp/views.py:133-137 | The result has the same length as the input, and each character is lower-cased. |
| Text.NatToStringInjective | backend_original/userapp/models.py:4-5 | Different numbers print differently. |
| Text.IntToString | backend_original/userapp/models.py:5 | `str(n)`: the result is not empty. It begins with `-` exactly when the number is negative, and with a digit otherwise. |
| Text.IntToStringInjective | backend_original/userapp/models.py:4-5 | Different integers print differently. |
| Text.RemoveAll | backend_original/userapp/serializers.py:81 | Removing every occurrence of a pattern never makes the text longer. |
| Text.RemoveAllAbsent | backend_original/userapp/serializers.py:81 | Text without the pattern is returned unchanged. |
| Text.RemoveAllLeading | backend_original/userapp/serializers.py:81 | An occurrence at the front is removed, and removal then continues on the rest of the text. |

## Left out

- The frontend, routing, the admin site, login and the JWT token views are not modelled. They hold no core logic.
- Password hashing is out of scope. A stored password is the constructor `Hashed(password)`, which is enough to state which password was stored.
- Django's configured password validators are opaque. The sign-up model takes them as a parameter `passwordPolicy`.
- Pagination is left out. List and search are modelled before pagination cuts them into pages.
- The create paths for users, posts and comments are not modelled. The post and comment create serializers accept likes and dislikes directly, so they could break disjointness. The model covers only the reaction views.
- User update and the logged-in-user view are left out. They are plain serializer saves.
- Timestamps (`created_at`, `updated_at`) are left out. No core logic reads them.
- Anonymous requesters are not modelled. The view methods that take a requester assume it is a stored user; the permission settings that would enforce this are not part of this model. `ChangePassword` takes no requester, because the source checks none.
- Whitespace is ASCII whitespace and the separator characters that Python strips. Case folding is ASCII only. Unicode is not modelled.
- The email and username formats and uniqueness validators of the second backend's sign-up are left out. That backend's models file is not part of this model. Email and username are modelled as required, non-blank text.
- A search request with no `search` parameter is not modelled. The term is always a string.
- Serializers.Usernames: the database promises no order for the members of a relation. The model lists them by descending id and states membership and distinctness, not order.
- Store.Database.UpdatePost: models the intended update, which saves the image `ImageToSave` picks. As written the source never changes the image (serializers.py:59); that state is `Store.UpdatedPostAsWritten`. The 200 status assumes the corrected `get_image` (`Serializers.ImageUrl`). As written, rendering the saved post raises ValueError after the save for a post without an image (serializers.py:81) or an author without an image (serializers.py:51); the source then answers with a server error, not 200, and the new description is already stored. The image is an opaque reference: file storage, renaming and the upload path given to a new file are not modelled.
- Queries.RetrievePost: models the lookup only. As written, the 200 response renders the post, and rendering raises ValueError in two cases: a post without an image (serializers.py:81), or a post whose author, or one of whose commenters, has no image (serializers.py:51, :20). The source then answers with a server error. The model's `Success` assumes the corrected renderers `Serializers.ImageUrl` and `Serializers.AuthorImage`.
- Queries.RetrieveUser: models the lookup only. As written, the 200 response renders the user's posts (serializers.py:96), and rendering raises ValueError for a user without an image who has written a post (serializers.py:51), or for any post of theirs that has no image (serializers.py:81). The model's `Success` assumes the corrected renderers.
- Concurrency and transactions are left out. Each view runs atomically in the model.
- The unreachable "User not deleted" branch of user destroy (views.py:89-90) is not modelled, because the flag was just set to false.

## Findings

| source | as written | input that shows it | evidently intended | confidence | as-written member | corrected member |
|---|---|---|---|---|---|---|
| backend_original/userapp/serializers.py:80-82 | `get_image` reads the image URL without checking that the post has an image. | A post with no image. Reading the URL raises ValueError, so retrieving or listing the post fails. | A post without an image renders as no URL, as the commented-out line 82 shows. | high, not executed | Serializers.ImageUrlAsWritten | Serializers.ImageUrl |
| backend_original/userapp/serializers.py:59 | `image` is declared as a read-only method field, so a full update ignores any image in the request. | A post without an image, updated with `image = new.png`. The saved post still has no image. | A sent image replaces the current one, and an absent, empty or `None` image keeps it (views.py:208-225). | medium, not executed | Store.UpdatedPostAsWritten | Store.UpdatedPost |
| backend_original/userapp/serializers.py:20 | `author_image` reads the author's image URL without checking that the author has an image (also line 51). | A post or comment whose author has no image. Reading the URL raises ValueError, so retrieving the post, listing posts or retrieving the author fails. | An author without an image renders as no URL, as the commented-out `get_author_image` at lines 67-68 shows. | high, not executed | Serializers.AuthorImageAsWritten | Serializers.AuthorImage |
