# api_yamdb core, modelled in Dafny

YaMDb is a REST service where users review titles, which are works such as films, books and songs. Each title belongs to a category and has genres. Users score a title from 1 to 10, and other users comment on the reviews. People sign up with a username and an email. The service mails them a confirmation code, and they exchange that code for an access token. Users are plain users, moderators or admins, and a Django superuser flag sits beside the role.

This project models these parts of the service:

- the permission classes, as pure decisions (`permissions.dfy`, module `Permissions`);
- the serializer validators: username format and the "me" ban, the signup cross-check of username and email, the confirmation-code check, the one-review-per-title check, and which user fields are writable (`serializers.dfy`, module `Serializers`);
- the schema: roles, field limits, the score range, and the row types (`models.dfy`, module `Models`);
- the views as a `Store` class over one database value: signup, token exchange, creating and listing reviews and comments, the `me` partial update, the title serializer choice, and the delete rules of the foreign keys (`views.dfy`, module `Views`).

Each table is a map keyed by primary key, or a sequence of rows in creation order. Creation order stands for the `pub_date` ordering of reviews. Comments declare no ordering, and the model keeps them in creation order. `Tables.Filter` is the order-preserving selection that querysets and cascading deletes use. `Views.DbOk` collects the database constraints:

- unique usernames and emails;
- field lengths;
- fresh ids;
- every foreign key resolves;
- review scores in range;
- at most one review per (author, title) pair.

Every state-changing store method keeps `DbOk`.

The following are parameters, not computed in the model:

- the confirmation code is passed in by the caller;
- the mail transport is a ghost outbox of `Mail` values;
- the access token is an opaque value naming the user.

## Model

| member | source | states |
|---|---|---|
| Permissions.IsAdminPermission | api_yamdb/api/permissions.py:8-12 | granted exactly when the requester is authenticated and is a superuser or has the admin role; the anonymous user is always denied |
| Permissions.IsAdminIgnoresMethod | api_yamdb/api/permissions.py:8-12 | the IsAdmin decision is the same for every HTTP method |
| Permissions.ReadOnlyPermission | api_yamdb/api/permissions.py:16-17 | granted exactly for GET, HEAD and OPTIONS |
| Permissions.AuthorAdminModeratorPermission | api_yamdb/api/permissions.py:22-26 | safe methods are always granted; unsafe methods exactly when the requester is authenticated |
| Permissions.AuthorAdminModeratorObjectPermission | api_yamdb/api/permissions.py:28-33 | safe methods granted; an unsafe method exactly when the requester is the author, an admin or a moderator; a grant here implies the view-level grant |
| Permissions.IsAdminOrReadOnlyPermission | api_yamdb/api/permissions.py:37-43 | the decision equals ReadOnly or IsAdmin |
| Permissions.SuperuserIsNotModerator | api_yamdb/api/permissions.py:28-33 | a superuser with role user is denied an unsafe object action on another user's resource while IsAdmin grants that user |
| Permissions.RaisingRoleKeepsGrants | api_yamdb/api/permissions.py:8-43 | raising a requester from user to moderator or admin keeps every grant of all four classes |
| Models.RolePredicatesExclusive | api_yamdb/reviews/models.py:48-58 | at most one of is_user, is_admin, is_moderator holds, and one holds exactly when the role is one of the choices |
| Models.FindUser | api_yamdb/api/views.py:85 | with unique usernames, the lookup finds a user exactly when the username is taken, and finds the only one with it |
| Models.UsernameFieldValid | api_yamdb/reviews/models.py:21-32 | a valid username is at most 150 characters and not "me"; without line breaks, and within the length, exactly the names other than "me" pass |
| Models.ModelUsernameCaseSensitive | api_yamdb/reviews/models.py:27-30 | the model validator rejects "me" and "me" followed by a line break but accepts "Me", "mE" and "ME" |
| Models.ScoreBoundaries | api_yamdb/reviews/models.py:136-140 | 0 and 11 are rejected, 1 and 10 accepted |
| Tables.FilterKeepsIncreasing | api_yamdb/reviews/models.py:148-149 | selecting rows keeps the creation order |
| Serializers.ToLower | api_yamdb/api/serializers.py:52 | lower-casing keeps the length |
| Serializers.LowerIsMe | api_yamdb/api/serializers.py:52-55 | a name lower-cases to "me" exactly when it is one of "me", "Me", "mE", "ME" |
| Serializers.PatternSemantics | api_yamdb/api/serializers.py:57-58 | the pattern test succeeds exactly when some prefix of one or more allowed characters reaches the end or the last character, which is a line break |
| Serializers.MatchesUsernamePattern | api_yamdb/api/serializers.py:57-59 | matches exactly when such a prefix exists; a matching name holds a line break only at its end |
| Serializers.ValidateUsername | api_yamdb/api/serializers.py:50-61 | the "me" error exactly for the four casings of "me", checked first; the format error exactly for other names that fail the pattern; otherwise the value is returned |
| Serializers.ValidateSignupPair | api_yamdb/api/serializers.py:63-76 | accepts exactly a registered (username, email) pair or a fresh username with a fresh email; email error exactly when the pair is not registered and the email is used; username error exactly when the email is fresh and the username is used |
| Serializers.CheckSignup | api_yamdb/api/serializers.py:45-84 | the payload is accepted, unchanged, exactly when the field lengths, the username rules, a writable role among the choices and the cross-check all pass; once the field checks pass, the answer is the cross-check's; a username error is reported once the lengths pass; a role error only for a writable role outside the choices. With `role` read-only, as the store uses it, a submitted role is ignored |
| Serializers.SignupFieldChecksIgnoreUsers | api_yamdb/api/serializers.py:63-76 | once the field checks pass, only the cross-check depends on the user table |
| Serializers.ValidateToken | api_yamdb/api/serializers.py:106-120 | NotFound exactly for an unknown username; otherwise the code error unless the stored code equals the given one; success names the user with that username |
| Serializers.ValidateReview | api_yamdb/api/serializers.py:24-38 | NotFound for a missing title; otherwise an error exactly on POST when the requester already reviewed the title, with the one-review message |
| Serializers.GetFields | api_yamdb/api/serializers.py:126-137 | role is writable exactly for a superuser or admin context user, which is the IsAdmin decision; every other field is writable |
| Views.RegisteredUserAsWritten | api_yamdb/api/serializers.py:78-84 | the created user takes the payload's username, email, names and bio (empty when absent), the submitted role or else the default role, and is not a superuser |
| Views.AsWrittenSignupRoleIsChoice | api_yamdb/api/serializers.py:78-84 | as written, a signup that passes validation creates a user whose role is one of the three choices |
| Views.SignupChoosesRoleAsWritten | api_yamdb/api/serializers.py:78-84 | a fresh signup naming the admin role passes the as-written validation and creates an admin |
| Views.RegisteredUser | api_yamdb/api/views.py:66 | the created user is a plain user, never admin, moderator or superuser; it takes the payload's username, email, names and bio (empty when absent), and is the as-written row with the default role |
| Views.SignupUsers | api_yamdb/api/views.py:64-71 | an unknown username adds exactly one user with the new code; a known one keeps the ids and replaces only that user's code; every other user is unchanged |
| Views.SignupKeepsUsersOk | api_yamdb/api/views.py:64-71 | a validated signup keeps unique usernames and emails, field lengths and fresh ids |
| Views.SignupThenToken | api_yamdb/api/views.py:68-71 | after signup the new code is accepted at token exchange and any other code is refused |
| Views.ReSignupIsIdempotent | api_yamdb/api/serializers.py:68-69 | signing up again with the same pair is accepted; the same username with another email, or the same email with another username, is refused |
| Views.NoTwoReviewsSharePair | api_yamdb/reviews/models.py:150-155 | no two rows of the review table share author and title |
| Views.FindReview | api_yamdb/api/views.py:46-48 | finds a review exactly when one has both the review id and the title id |
| Views.ClearCategory | api_yamdb/reviews/models.py:112-119 | every title stays; no title refers to the deleted category; titles that referred to it now have no category, and nothing else changes |
| Views.DropGenre | api_yamdb/reviews/models.py:106-111 | every title stays and loses only the deleted genre |
| Views.PatchError | api_yamdb/api/serializers.py:123-147 | a patch passes exactly when every submitted email and username is within its limits, passes the model validators and is unused by the other users, every submitted name is within its length, and a writable submitted role is among the choices; the email error exactly when the email fails; every other reported field is one that fails |
| Views.ApplyPatch | api_yamdb/api/views.py:114-119 | each submitted field replaces the stored one and each absent field stays; the role is replaced exactly when writable and submitted; code and superuser flag are kept; an empty patch changes nothing |
| Views.PatchKeepsUsersOk | api_yamdb/reviews/models.py:21-35 | a validated patch of one user keeps the user constraints |
| Views.TitleSerializerFor | api_yamdb/api/views.py:141-144 | the create/update serializer exactly for create and partial_update |
| Views.DeleteUserDb | api_yamdb/reviews/models.py:130-165 | the user goes; a review stays exactly when another user wrote it; a comment stays exactly when another user wrote it on a review that stays; no row appears and every other table and counter is unchanged |
| Views.DeleteUserKeepsOk | api_yamdb/reviews/models.py:130-165 | deleting a user keeps every database constraint |
| Views.DeleteTitleDb | api_yamdb/reviews/models.py:131-165 | the title goes; a review stays exactly when it is on another title; a comment stays exactly when its review stays; no row appears and every other table and counter is unchanged |
| Views.DeleteTitleKeepsOk | api_yamdb/reviews/models.py:131-165 | deleting a title keeps every database constraint |
| Views.DeleteReviewDb | api_yamdb/reviews/models.py:164-165 | a review stays exactly when it is not the deleted one; a comment stays exactly when it is not on it; no row appears and nothing else changes |
| Views.DeleteReviewKeepsOk | api_yamdb/reviews/models.py:164-165 | deleting a review keeps every database constraint |
| Views.AppendReviewKeepsOk | api_yamdb/reviews/models.py:150-155 | appending a fresh review by a known user on a known title, with a valid score and no earlier review of the pair, keeps every constraint, uniqueness of the pair included |
| Views.AppendCommentKeepsOk | api_yamdb/api/views.py:45-49 | appending a fresh comment by a known user on a stored review keeps every constraint |
| Views.SignupKeepsDbOk | api_yamdb/api/views.py:60-75 | a validated signup keeps every database constraint |
| Views.Store.Signup | api_yamdb/api/views.py:60-75 | follows the corrected signup rule: the result is the validation with `role` read-only, and a new user is the plain-user RegisteredUser row; the response is the payload; on success the user table is SignupUsers, the id counter grows only for a new user, and one mail with the code goes to the payload's email; on error nothing changes |
| Views.Store.ExchangeToken | api_yamdb/api/views.py:80-88 | writes nothing; the result is the token check, and a token names a user whose stored code is the given one |
| Views.Store.ReviewsOfTitle | api_yamdb/api/views.py:36-38 | NotFound exactly for an unknown title; otherwise exactly the reviews of that title, in creation order |
| Views.Store.CommentsOfReview | api_yamdb/api/views.py:51-55 | NotFound exactly when no review matches both path ids; otherwise exactly the comments on that review, each once and in creation order |
| Views.Store.CreateReview | api_yamdb/api/views.py:30-34 | success exactly with a valid score, an existing title and no earlier review by the requester; the new review has the requester as author and the path title; errors in validator order; the table changes only on success |
| Views.Store.CreateComment | api_yamdb/api/views.py:45-49 | NotFound exactly when no review matches both path ids; otherwise one comment is appended with the requester as author and that review |
| Views.Store.MePatch | api_yamdb/api/views.py:108-120 | succeeds exactly when PatchError finds nothing, with `role` writable exactly under the IsAdmin decision, and otherwise reports PatchError's field without writing; on success only the requester's row changes, to ApplyPatch of it; the role changes only for a superuser or admin requester |
| Views.Store.DeleteUser | api_yamdb/reviews/models.py:130-165 | the new database is DeleteUserDb of the old one and keeps the constraints |
| Views.Store.DeleteTitle | api_yamdb/reviews/models.py:131-133 | the new database is DeleteTitleDb of the old one and keeps the constraints |
| Views.Store.DeleteReview | api_yamdb/reviews/models.py:164-165 | the new database is DeleteReviewDb of the old one and keeps the constraints |
| Views.Store.DeleteComment | api_yamdb/reviews/models.py:158-168 | only the comment goes, and the constraints hold |
| Views.Store.DeleteCategory | api_yamdb/reviews/models.py:112-119 | the category goes and the titles become ClearCategory of the old titles |
| Views.Store.DeleteGenre | api_yamdb/reviews/models.py:106-111 | the genre goes and the titles become DropGenre of the old titles |
| Views.Store.AddCategory | api_yamdb/reviews/models.py:81-85 | created exactly with a name of at most 256 and a fresh slug of at most 50 characters |
| Views.Store.AddGenre | api_yamdb/reviews/models.py:67-71 | created exactly with a name of at most 256 and a fresh slug of at most 50 characters |
| Views.Store.AddTitle | api_yamdb/api/serializers.py:174-189 | created exactly with a name of at most 256 characters, a year in the positive small-integer range, and existing genre and category slugs; the new title gets the next id |

## Left out

- Unicode: `\w` and `str.lower()` are modelled on ASCII only. No non-ASCII character lower-cases to "m" or "e", so the "me" ban is exact. The pattern refuses non-ASCII word characters that Python would accept.
- Framework field handling is not modelled: trimming whitespace, blank and required checks, and email syntax. As a result, a trailing line break reaches the username validators here, while the framework would have trimmed it first.
- Django's `create_user` normalises the new row: it lower-cases the domain of the email and NFKC-normalises the username. The model stores both exactly as sent. So after a signup with `eve@Example.COM`, the source refuses a second signup with the same pair: its exact-match lookups no longer find it, and it answers that the username is taken. `ReSignupIsIdempotent` proves the model accepts it.
- Only the first failing field is reported. The framework collects every field error.
- `UnicodeUsernameValidator` and `validate_year` are not part of this model. The year is bounded only by the positive small-integer range.
- The title rating is left out. It is a floating-point aggregate.
- JWT minting is left out. The token is an opaque value naming the user.
- The confirmation code comes from uuid randomness. It is a parameter here.
- The confirmation mail is a ghost outbox entry, not I/O.
- Races between the validators and the database unique constraints are not modelled, and neither are transactions.
- HTTP status codes, pagination, filtering, search, ordering parameters and response formats are left out. Only the error kind is kept.
- Permission checks and store methods are separate. The store methods assume the view's permission class has granted. Review and comment creation and `me` take an authenticated requester who exists in the user table.
- The admin user-management views (`UserViewSet` list, create, retrieve, update, delete by username) are left out.
- The `me` GET is left out. It reads without writing.
- Review and comment updates are left out. The review validator is modelled for every method.
- The store's deletes model the foreign-key rules of the ORM, not the viewsets' lookup: deleting a missing id changes nothing. The viewsets first look the object up in the path-scoped queryset and answer NotFound for a missing id or one outside the path title or review.
- Slug syntax is not checked. Only its length is.
- Views.Store.CreateReview: the score's custom error message is never used by the validators. The model reports a field error on `score` without a message.
- Permissions.AuthorAdminModeratorObjectPermission: for the anonymous user on an unsafe method, the source raises an exception when it reads the role. The model returns a denial. `has_permission` denies such a request first anyway.

## Findings

| source | as written | input that shows it | evidently intended | confidence | as-written member | corrected member |
|---|---|---|---|---|---|---|
| api_yamdb/api/serializers.py:78-84 | the signup serializer lists `role` among its fields and never makes it read-only, so the role in the payload reaches the created user; the role must be one of the three choices | an anonymous signup with username "eve", email "eve@example.com" and role "admin" | signup creates a plain user; only an admin changes roles, as `UserSerializer` does | not executed | Views.RegisteredUserAsWritten, Views.SignupChoosesRoleAsWritten | Views.RegisteredUser |
