/**
 * The views over one store: signup, token exchange, review and comment
 * creation and listing scoped by the path ids, the `me` partial update, the
 * title serializer choice, and the delete rules of the foreign keys.
 */
module Views {
  import opened Common
  import opened Tables
  import opened Models
  import opened Permissions
  import opened Serializers

  /** A confirmation mail handed to the mail transport. */
  datatype Mail = Mail(recipient: string, code: string)

  function OrEmpty(o: Option<string>): (text: string) {
    if o.Some? then o.value else ""
  }

  // ------------------------------------------------------------------ signup

  /**
   * The user row the registration serializer creates, as written: every field
   * the serializer lists is writable, `role` included.
   */
  function RegisteredUserAsWritten(req: SignupRequest): (u: UserRecord)
    ensures u.username == req.username && u.email == req.email && u.code == None
    ensures req.role.Some? ==> u.role == req.role.value
    ensures req.role.None? ==> u.role == DefaultRole
    ensures u.firstName == OrEmpty(req.firstName) && u.lastName == OrEmpty(req.lastName) && u.bio == OrEmpty(req.bio)
    ensures !u.isSuperuser
  {
    UserRecord(req.username, req.email, OrEmpty(req.firstName), OrEmpty(req.lastName), OrEmpty(req.bio),
               if req.role.Some? then req.role.value else DefaultRole, false, None)
  }

  /** An anonymous signup that names the admin role passes validation and, as written, creates an admin. */
  lemma SignupChoosesRoleAsWritten()
    ensures var req := SignupRequest("eve", "eve@example.com", None, None, None, Some(AdminRole));
      CheckSignup(map[], req, true) == Ok(req) && IsAdmin(RegisteredUserAsWritten(req))
  {
    var req := SignupRequest("eve", "eve@example.com", None, None, None, Some(AdminRole));
    assert PatternMatchesUpTo(req.username, 3);
  }

  /** As written, a signup that passes validation creates a user whose role is one of the choices. */
  lemma AsWrittenSignupRoleIsChoice(users: Users, req: SignupRequest)
    requires UniqueUsernames(users) && UniqueEmails(users)
    requires CheckSignup(users, req, true).Ok?
    ensures IsChoice(RegisteredUserAsWritten(req).role)
  {
  }

  /** The user row signup creates with `role` read-only: whatever the payload says, a plain user. */
  function RegisteredUser(req: SignupRequest): (u: UserRecord)
    ensures u.username == req.username && u.email == req.email && u.code == None
    ensures IsUser(u) && !IsAdmin(u) && !IsModerator(u) && !u.isSuperuser
    ensures u.firstName == OrEmpty(req.firstName) && u.lastName == OrEmpty(req.lastName) && u.bio == OrEmpty(req.bio)
    ensures u == RegisteredUserAsWritten(req).(role := DefaultRole)
  {
    UserRecord(req.username, req.email, OrEmpty(req.firstName), OrEmpty(req.lastName), OrEmpty(req.bio),
               DefaultRole, false, None)
  }

  ghost predicate IdsBelow(users: Users, nextId: UserId) {
    forall id | id in users :: id < nextId
  }

  /**
   * The user table after a signup that passed validation: a new user is
   * created when the username is unknown, then the user's code is replaced.
   */
  function SignupUsers(users: Users, nextId: UserId, req: SignupRequest, code: string): (r: Users)
    requires UniqueUsernames(users) && IdsBelow(users, nextId)
    ensures UsernameTaken(users, req.username) ==> r.Keys == users.Keys
    ensures !UsernameTaken(users, req.username) ==>
      r.Keys == users.Keys + {nextId} && r[nextId] == RegisteredUser(req).(code := Some(code))
    ensures forall id | id in users && users[id].username != req.username :: r[id] == users[id]
    ensures forall id | id in users && users[id].username == req.username :: r[id] == users[id].(code := Some(code))
  {
    match FindUser(users, req.username)
    case Some(id) => users[id := users[id].(code := Some(code))]
    case None => users[nextId := RegisteredUser(req).(code := Some(code))]
  }

  /** The user constraints of the store: unique usernames and emails, field lengths, fresh ids. */
  ghost predicate UsersOk(users: Users, nextId: UserId) {
    && UniqueUsernames(users) && UniqueEmails(users) && IdsBelow(users, nextId)
    && (forall id | id in users :: |users[id].username| <= UsernameMaxLength && |users[id].email| <= EmailMaxLength)
  }

  /** A signup that passed validation keeps the user constraints. */
  lemma SignupKeepsUsersOk(users: Users, nextId: UserId, req: SignupRequest, code: string)
    requires UsersOk(users, nextId) && CheckSignup(users, req, false).Ok?
    ensures UsersOk(SignupUsers(users, nextId, req, code),
                    if UsernameTaken(users, req.username) then nextId else nextId + 1)
  {
    var r := SignupUsers(users, nextId, req, code);
    assert ValidateSignupPair(users, req).Ok?;
    if UsernameTaken(users, req.username) {
      forall a | a in r ensures r[a].username == users[a].username && r[a].email == users[a].email {
      }
    } else {
      assert !EmailTaken(users, req.email);
      forall a | a in users
        ensures r[a] == users[a] && users[a].username != req.username && users[a].email != req.email
      {
      }
    }
  }

  /** After signup the fresh code, and no other code, is accepted at token exchange. */
  lemma SignupThenToken(users: Users, nextId: UserId, req: SignupRequest, code: string, other: string)
    requires UsersOk(users, nextId) && CheckSignup(users, req, false).Ok?
    requires other != code
    ensures UniqueUsernames(SignupUsers(users, nextId, req, code))
    ensures ValidateToken(SignupUsers(users, nextId, req, code), req.username, code).Ok?
    ensures ValidateToken(SignupUsers(users, nextId, req, code), req.username, other) ==
      Err(ValidationError(InvalidConfirmationCode))
  {
    SignupKeepsUsersOk(users, nextId, req, code);
    var r := SignupUsers(users, nextId, req, code);
    var id :| id in r && r[id].username == req.username && r[id].code == Some(code) by {
      match FindUser(users, req.username)
      case Some(old_id) => assert r[old_id].code == Some(code);
      case None => assert r[nextId].code == Some(code);
    }
  }

  /**
   * Signing up again with the same username and email is accepted and adds no
   * user; the same username with another email, or the same email with
   * another username, is refused.
   */
  lemma ReSignupIsIdempotent(users: Users, nextId: UserId, req: SignupRequest, code: string,
                             email2: string, username2: string)
    requires UsersOk(users, nextId) && CheckSignup(users, req, false).Ok?
    requires email2 != req.email && username2 != req.username
    ensures UniqueUsernames(SignupUsers(users, nextId, req, code)) && UniqueEmails(SignupUsers(users, nextId, req, code))
    ensures CheckSignup(SignupUsers(users, nextId, req, code), req, false) == Ok(req)
    ensures UsernameTaken(SignupUsers(users, nextId, req, code), req.username)
    ensures ValidateSignupPair(SignupUsers(users, nextId, req, code), req.(email := email2)).Err?
    ensures ValidateSignupPair(SignupUsers(users, nextId, req, code), req.(username := username2)).Err?
  {
    SignupKeepsUsersOk(users, nextId, req, code);
    var r := SignupUsers(users, nextId, req, code);
    var id :| id in r && r[id].username == req.username && r[id].email == req.email by {
      match FindUser(users, req.username)
      case Some(old_id) =>
        assert ValidateSignupPair(users, req).Ok?;
        assert r[old_id].username == req.username && r[old_id].email == req.email;
      case None => assert r[nextId].username == req.username;
    }
    assert PairRegistered(r, req.username, req.email);
    SignupFieldChecksIgnoreUsers(users, r, req, false);
    assert !PairRegistered(r, req.username, email2);
    assert !PairRegistered(r, username2, req.email);
  }

  // ------------------------------------------------------------ store rows

  function ReviewIds(reviews: seq<Review>): (ids: set<ReviewId>)
    ensures forall rv | rv in reviews :: rv.id in ids
  {
    set rv | rv in reviews :: rv.id
  }

  /** At most one review per (author, title): the unique constraint of the review table. */
  ghost predicate OneReviewPerPair(reviews: seq<Review>) {
    forall a, b | a in reviews && b in reviews :: a.author == b.author && a.title == b.title ==> a == b
  }

  /** The catalogue constraints: slug lengths and the title foreign keys. */
  ghost predicate CatalogOk(categories: map<Slug, string>, genres: map<Slug, string>,
                            titles: map<TitleId, Title>, nextTitleId: TitleId) {
    && (forall s | s in categories :: |s| <= SlugMaxLength)
    && (forall s | s in genres :: |s| <= SlugMaxLength)
    && (forall t | t in titles :: t < nextTitleId)
    && (forall t | t in titles :: titles[t].category.Some? ==> titles[t].category.value in categories)
    && (forall t | t in titles :: titles[t].genres <= genres.Keys)
  }

  /** The review constraints: creation order, fresh ids, foreign keys, score range, uniqueness. */
  ghost predicate ReviewsOk(reviews: seq<Review>, users: Users, titles: map<TitleId, Title>, nextReviewId: ReviewId) {
    && Increasing(reviews, ReviewKey)
    && (forall rv | rv in reviews :: rv.id < nextReviewId && rv.author in users && rv.title in titles)
    && (forall rv | rv in reviews :: ScoreIsValid(rv.score))
    && OneReviewPerPair(reviews)
  }

  /** The comment constraints: creation order, fresh ids, foreign keys. */
  ghost predicate CommentsOk(comments: seq<Comment>, reviews: seq<Review>, users: Users, nextCommentId: CommentId) {
    && Increasing(comments, CommentKey)
    && (forall c | c in comments :: c.id < nextCommentId && c.author in users && c.review in ReviewIds(reviews))
  }

  /** No two rows of the review table share an (author, title) pair. */
  lemma NoTwoReviewsSharePair(reviews: seq<Review>, i: int, j: int)
    requires Increasing(reviews, ReviewKey) && OneReviewPerPair(reviews)
    requires 0 <= i < j < |reviews|
    ensures reviews[i].author != reviews[j].author || reviews[i].title != reviews[j].title
  {
    assert ReviewKey(reviews[i]) < ReviewKey(reviews[j]);
    assert reviews[i] in reviews && reviews[j] in reviews;
  }

  function NotByAuthor(u: UserId): (keep: Review -> bool) { (rv: Review) => rv.author != u }
  function NotOnTitle(t: TitleId): (keep: Review -> bool) { (rv: Review) => rv.title != t }
  function OnTitle(t: TitleId): (keep: Review -> bool) { (rv: Review) => rv.title == t }
  function ReviewIsNot(id: ReviewId): (keep: Review -> bool) { (rv: Review) => rv.id != id }
  function IsReviewOf(id: ReviewId, t: TitleId): (keep: Review -> bool) { (rv: Review) => rv.id == id && rv.title == t }
  function CommentOn(id: ReviewId): (keep: Comment -> bool) { (c: Comment) => c.review == id }
  function CommentNotOn(id: ReviewId): (keep: Comment -> bool) { (c: Comment) => c.review != id }
  function CommentIsNot(id: CommentId): (keep: Comment -> bool) { (c: Comment) => c.id != id }
  function CommentOnAny(live: set<ReviewId>): (keep: Comment -> bool) { (c: Comment) => c.review in live }
  function CommentKept(u: UserId, live: set<ReviewId>): (keep: Comment -> bool) {
    (c: Comment) => c.author != u && c.review in live
  }

  /** `get_object_or_404(Review, id=review_id, title=title_id)` */
  function FindReview(reviews: seq<Review>, id: ReviewId, t: TitleId): (r: Option<Review>)
    ensures r.Some? ==> r.value in reviews && r.value.id == id && r.value.title == t
    ensures r.None? <==> !exists rv | rv in reviews :: rv.id == id && rv.title == t
  {
    var matches := Filter(reviews, IsReviewOf(id, t));
    if matches == [] then None else Some(matches[0])
  }

  /** The titles after a category is deleted: its references become null, nothing else changes. */
  function ClearCategory(titles: map<TitleId, Title>, slug: Slug): (r: map<TitleId, Title>)
    ensures r.Keys == titles.Keys
    ensures forall t | t in r :: r[t].category != Some(slug)
    ensures forall t | t in r :: r[t].(category := titles[t].category) == titles[t]
    ensures forall t | t in r && titles[t].category != Some(slug) :: r[t] == titles[t]
    ensures forall t | t in r && titles[t].category == Some(slug) :: r[t].category == None
  {
    map t | t in titles :: if titles[t].category == Some(slug) then titles[t].(category := None) else titles[t]
  }

  /** The titles after a genre is deleted: the genre leaves every title's genre set. */
  function DropGenre(titles: map<TitleId, Title>, slug: Slug): (r: map<TitleId, Title>)
    ensures r.Keys == titles.Keys
    ensures forall t | t in r :: slug !in r[t].genres && r[t].genres + {slug} >= titles[t].genres
    ensures forall t | t in r :: r[t].(genres := titles[t].genres) == titles[t] && r[t].genres <= titles[t].genres
  {
    map t | t in titles :: titles[t].(genres := titles[t].genres - {slug})
  }

  // -------------------------------------------------------------- me patch

  /** The fields a `me` PATCH may carry; absent fields are left as they are. */
  datatype UserPatch = UserPatch(
    email: Option<string>,
    username: Option<string>,
    firstName: Option<string>,
    lastName: Option<string>,
    bio: Option<string>,
    role: Option<Role>)

  function RequesterOf(users: Users, id: UserId): (requester: Requester)
    requires id in users
  {
    Authenticated(id, users[id].role, users[id].isSuperuser)
  }

  /** The email of a patch is within its length and unused by the other users. */
  ghost predicate PatchEmailOk(users: Users, actor: UserId, p: UserPatch) {
    p.email.Some? ==>
      |p.email.value| <= EmailMaxLength && forall id | id in users && id != actor :: users[id].email != p.email.value
  }

  /** The username of a patch passes the model validators and is unused by the other users. */
  ghost predicate PatchUsernameOk(users: Users, actor: UserId, p: UserPatch) {
    p.username.Some? ==>
      UsernameFieldValid(p.username.value) && forall id | id in users && id != actor :: users[id].username != p.username.value
  }

  ghost predicate PatchNamesOk(p: UserPatch) {
    && (p.firstName.Some? ==> |p.firstName.value| <= PersonNameMaxLength)
    && (p.lastName.Some? ==> |p.lastName.value| <= PersonNameMaxLength)
  }

  /**
   * The field validators of the partial update, in field order: email and
   * username must be unique among the other users and within their lengths,
   * the username must pass the model validator, the names must be within
   * their lengths, and a writable role must be one of the choices. A
   * read-only role is ignored.
   */
  function PatchError(users: Users, actor: UserId, p: UserPatch, roleWritable: bool): (e: Option<Error>)
    ensures e.None? <==>
      PatchEmailOk(users, actor, p) && PatchUsernameOk(users, actor, p) && PatchNamesOk(p) &&
      (roleWritable && p.role.Some? ==> IsChoice(p.role.value))
    ensures e == Some(FieldError("email")) <==> !PatchEmailOk(users, actor, p)
    ensures e == Some(FieldError("username")) ==> !PatchUsernameOk(users, actor, p)
    ensures e == Some(FieldError("first_name")) ==> p.firstName.Some? && |p.firstName.value| > PersonNameMaxLength
    ensures e == Some(FieldError("last_name")) ==> p.lastName.Some? && |p.lastName.value| > PersonNameMaxLength
    ensures e == Some(FieldError("role")) ==> roleWritable && p.role.Some? && !IsChoice(p.role.value)
    ensures e.Some? ==> e.value.FieldError? && e.value.field in {"email", "username", "first_name", "last_name", "role"}
  {
    if p.email.Some? && (|p.email.value| > EmailMaxLength ||
        exists id | id in users && id != actor :: users[id].email == p.email.value) then
      Some(FieldError("email"))
    else if p.username.Some? && (!UsernameFieldValid(p.username.value) ||
        exists id | id in users && id != actor :: users[id].username == p.username.value) then
      Some(FieldError("username"))
    else if p.firstName.Some? && |p.firstName.value| > PersonNameMaxLength then Some(FieldError("first_name"))
    else if p.lastName.Some? && |p.lastName.value| > PersonNameMaxLength then Some(FieldError("last_name"))
    else if roleWritable && p.role.Some? && !IsChoice(p.role.value) then Some(FieldError("role"))
    else None
  }

  function Pick<T>(o: Option<T>, current: T): (picked: T) {
    if o.Some? then o.value else current
  }

  /** The user row after a partial update: submitted fields replace, absent fields stay, `role` only when writable. */
  function ApplyPatch(u: UserRecord, p: UserPatch, roleWritable: bool): (r: UserRecord)
    ensures p.username.Some? ==> r.username == p.username.value
    ensures p.username.None? ==> r.username == u.username
    ensures p.email.Some? ==> r.email == p.email.value
    ensures p.email.None? ==> r.email == u.email
    ensures p.firstName.Some? ==> r.firstName == p.firstName.value
    ensures p.firstName.None? ==> r.firstName == u.firstName
    ensures p.lastName.Some? ==> r.lastName == p.lastName.value
    ensures p.lastName.None? ==> r.lastName == u.lastName
    ensures p.bio.Some? ==> r.bio == p.bio.value
    ensures p.bio.None? ==> r.bio == u.bio
    ensures roleWritable && p.role.Some? ==> r.role == p.role.value
    ensures !roleWritable || p.role.None? ==> r.role == u.role
    ensures r.code == u.code && r.isSuperuser == u.isSuperuser
    ensures p == UserPatch(None, None, None, None, None, None) ==> r == u
  {
    UserRecord(Pick(p.username, u.username), Pick(p.email, u.email), Pick(p.firstName, u.firstName),
               Pick(p.lastName, u.lastName), Pick(p.bio, u.bio),
               if roleWritable then Pick(p.role, u.role) else u.role, u.isSuperuser, u.code)
  }

  /** A validated partial update of one user keeps the user constraints. */
  lemma PatchKeepsUsersOk(users: Users, nextId: UserId, actor: UserId, p: UserPatch, roleWritable: bool)
    requires UsersOk(users, nextId) && actor in users
    requires PatchError(users, actor, p, roleWritable).None?
    ensures UsersOk(users[actor := ApplyPatch(users[actor], p, roleWritable)], nextId)
  {
    var u := ApplyPatch(users[actor], p, roleWritable);
    var r := users[actor := u];
    assert PatchEmailOk(users, actor, p) && PatchUsernameOk(users, actor, p);
    assert |u.username| <= UsernameMaxLength && |u.email| <= EmailMaxLength;
    forall b | b in users && b != actor
      ensures r[b] == users[b]
      ensures users[b].username != u.username && users[b].email != u.email
    {
    }
  }

  // ---------------------------------------------------------- title views

  datatype Action = List | Create | Retrieve | Update | PartialUpdate | Destroy
  datatype TitleSerializerKind = TitleRead | TitleCreateUpdate

  /** TitlesViewSet.get_serializer_class */
  function TitleSerializerFor(action: Action): (k: TitleSerializerKind)
    ensures k == TitleCreateUpdate <==> action == Create || action == PartialUpdate
  {
    if action in {Create, PartialUpdate} then TitleCreateUpdate else TitleRead
  }

  // ------------------------------------------------------------- database

  /** The tables of the database, with the next primary key of each auto-numbered table. */
  datatype Db = Db(
    users: Users, nextUserId: UserId,
    categories: map<Slug, string>, genres: map<Slug, string>,
    titles: map<TitleId, Title>, nextTitleId: TitleId,
    reviews: seq<Review>, nextReviewId: ReviewId,
    comments: seq<Comment>, nextCommentId: CommentId)

  /** The schema's constraints and referential integrity. */
  ghost predicate DbOk(d: Db) {
    && UsersOk(d.users, d.nextUserId)
    && CatalogOk(d.categories, d.genres, d.titles, d.nextTitleId)
    && ReviewsOk(d.reviews, d.users, d.titles, d.nextReviewId)
    && CommentsOk(d.comments, d.reviews, d.users, d.nextCommentId)
  }

  /** Replacing the user table by a valid one with at least the same ids keeps every constraint. */
  lemma NewUsersKeepDbOk(d: Db, users: Users, nextUserId: UserId)
    requires DbOk(d) && UsersOk(users, nextUserId) && d.users.Keys <= users.Keys
    ensures DbOk(d.(users := users, nextUserId := nextUserId))
  {
  }

  /** What a cascading delete leaves of the review table still satisfies the constraints. */
  lemma FilterReviewsOk(reviews: seq<Review>, keep: Review -> bool, users: Users, titles: map<TitleId, Title>,
                        next: ReviewId, users': Users, titles': map<TitleId, Title>)
    requires ReviewsOk(reviews, users, titles, next)
    requires forall rv | rv in reviews && keep(rv) :: rv.author in users' && rv.title in titles'
    ensures ReviewsOk(Filter(reviews, keep), users', titles', next)
  {
    FilterKeepsIncreasing(reviews, keep, ReviewKey);
  }

  /** What a cascading delete leaves of the comment table still satisfies the constraints. */
  lemma FilterCommentsOk(comments: seq<Comment>, keep: Comment -> bool, reviews: seq<Review>, users: Users,
                         next: CommentId, reviews': seq<Review>, users': Users)
    requires CommentsOk(comments, reviews, users, next)
    requires forall c | c in comments && keep(c) :: c.author in users' && c.review in ReviewIds(reviews')
    ensures CommentsOk(Filter(comments, keep), reviews', users', next)
  {
    FilterKeepsIncreasing(comments, keep, CommentKey);
  }

  lemma KeptReviewId(reviews: seq<Review>, keep: Review -> bool, id: ReviewId)
    requires id in ReviewIds(reviews)
    requires forall rv | rv in reviews && rv.id == id :: keep(rv)
    ensures id in ReviewIds(Filter(reviews, keep))
  {
    var rv :| rv in reviews && rv.id == id;
    assert rv in Filter(reviews, keep);
  }

  /** The database after a user is deleted: the user's reviews, the user's comments and the comments on those reviews go. */
  function DeleteUserDb(d: Db, u: UserId): (r: Db)
    ensures r.users == d.users - {u}
    ensures r.(users := d.users, reviews := d.reviews, comments := d.comments) == d
    ensures forall rv | rv in r.reviews :: rv in d.reviews
    ensures forall c | c in r.comments :: c in d.comments
    ensures forall rv | rv in d.reviews :: rv in r.reviews <==> rv.author != u
    ensures forall c | c in d.comments ::
      c in r.comments <==> c.author != u && exists rv | rv in d.reviews && rv.author != u :: rv.id == c.review
  {
    var reviews := Filter(d.reviews, NotByAuthor(u));
    d.(users := d.users - {u}, reviews := reviews, comments := Filter(d.comments, CommentKept(u, ReviewIds(reviews))))
  }

  lemma DeleteUserKeepsReviewsOk(d: Db, u: UserId)
    requires ReviewsOk(d.reviews, d.users, d.titles, d.nextReviewId)
    ensures ReviewsOk(Filter(d.reviews, NotByAuthor(u)), d.users - {u}, d.titles, d.nextReviewId)
  {
    forall rv | rv in d.reviews && NotByAuthor(u)(rv) ensures rv.author in d.users - {u} && rv.title in d.titles {
    }
    FilterReviewsOk(d.reviews, NotByAuthor(u), d.users, d.titles, d.nextReviewId, d.users - {u}, d.titles);
  }

  lemma DeleteUserKeepsCommentsOk(d: Db, u: UserId)
    requires CommentsOk(d.comments, d.reviews, d.users, d.nextCommentId)
    ensures var reviews' := Filter(d.reviews, NotByAuthor(u));
      CommentsOk(Filter(d.comments, CommentKept(u, ReviewIds(reviews'))), reviews', d.users - {u}, d.nextCommentId)
  {
    var reviews' := Filter(d.reviews, NotByAuthor(u));
    var keep := CommentKept(u, ReviewIds(reviews'));
    forall c | c in d.comments && keep(c) ensures c.author in d.users - {u} && c.review in ReviewIds(reviews') {
    }
    FilterCommentsOk(d.comments, keep, d.reviews, d.users, d.nextCommentId, reviews', d.users - {u});
  }

  lemma {:induction false} DeleteUserKeepsOk(d: Db, u: UserId)
    requires DbOk(d)
    ensures DbOk(DeleteUserDb(d, u))
  {
    assert UsersOk(d.users - {u}, d.nextUserId);
    DeleteUserKeepsReviewsOk(d, u);
    DeleteUserKeepsCommentsOk(d, u);
  }

  /** The database after a title is deleted: its reviews and the comments on them go. */
  function DeleteTitleDb(d: Db, t: TitleId): (r: Db)
    ensures r.titles == d.titles - {t}
    ensures r.(titles := d.titles, reviews := d.reviews, comments := d.comments) == d
    ensures forall rv | rv in r.reviews :: rv in d.reviews
    ensures forall c | c in r.comments :: c in d.comments
    ensures forall rv | rv in d.reviews :: rv in r.reviews <==> rv.title != t
    ensures forall c | c in d.comments :: c in r.comments <==> exists rv | rv in d.reviews :: rv.id == c.review && rv.title != t
  {
    var reviews := Filter(d.reviews, NotOnTitle(t));
    d.(titles := d.titles - {t}, reviews := reviews, comments := Filter(d.comments, CommentOnAny(ReviewIds(reviews))))
  }

  lemma {:induction false} DeleteTitleKeepsOk(d: Db, t: TitleId)
    requires DbOk(d)
    ensures DbOk(DeleteTitleDb(d, t))
  {
    var reviews' := Filter(d.reviews, NotOnTitle(t));
    FilterReviewsOk(d.reviews, NotOnTitle(t), d.users, d.titles, d.nextReviewId, d.users, d.titles - {t});
    FilterCommentsOk(d.comments, CommentOnAny(ReviewIds(reviews')), d.reviews, d.users, d.nextCommentId, reviews', d.users);
  }

  /** The database after a review is deleted: exactly that review and its comments go. */
  function DeleteReviewDb(d: Db, id: ReviewId): (r: Db)
    ensures r.(reviews := d.reviews, comments := d.comments) == d
    ensures forall rv | rv in r.reviews :: rv in d.reviews
    ensures forall c | c in r.comments :: c in d.comments
    ensures forall rv | rv in d.reviews :: rv in r.reviews <==> rv.id != id
    ensures forall c | c in d.comments :: c in r.comments <==> c.review != id
  {
    d.(reviews := Filter(d.reviews, ReviewIsNot(id)), comments := Filter(d.comments, CommentNotOn(id)))
  }

  lemma {:induction false} DeleteReviewKeepsOk(d: Db, id: ReviewId)
    requires DbOk(d)
    ensures DbOk(DeleteReviewDb(d, id))
  {
    var reviews' := Filter(d.reviews, ReviewIsNot(id));
    FilterReviewsOk(d.reviews, ReviewIsNot(id), d.users, d.titles, d.nextReviewId, d.users, d.titles);
    forall c | c in d.comments && CommentNotOn(id)(c) ensures c.author in d.users && c.review in ReviewIds(reviews') {
      KeptReviewId(d.reviews, ReviewIsNot(id), c.review);
    }
    FilterCommentsOk(d.comments, CommentNotOn(id), d.reviews, d.users, d.nextCommentId, reviews', d.users);
  }

  lemma AppendReviewKeepsOk(d: Db, rv: Review)
    requires DbOk(d)
    requires rv.id == d.nextReviewId && rv.author in d.users && rv.title in d.titles && ScoreIsValid(rv.score)
    requires !exists x | x in d.reviews :: x.author == rv.author && x.title == rv.title
    ensures DbOk(d.(reviews := d.reviews + [rv], nextReviewId := d.nextReviewId + 1))
  {
    var reviews := d.reviews + [rv];
    AppendKeepsIncreasing(d.reviews, rv, ReviewKey);
    assert ReviewsOk(reviews, d.users, d.titles, d.nextReviewId + 1) by {
      forall a, b | a in reviews && b in reviews && a.author == b.author && a.title == b.title ensures a == b {
        assert a in d.reviews || a == rv;
        assert b in d.reviews || b == rv;
      }
    }
    assert CommentsOk(d.comments, reviews, d.users, d.nextCommentId) by {
      forall c | c in d.comments ensures c.review in ReviewIds(reviews) {
        var x :| x in d.reviews && x.id == c.review;
        assert x in reviews;
      }
    }
  }

  lemma AppendCommentKeepsOk(d: Db, c: Comment)
    requires DbOk(d)
    requires c.id == d.nextCommentId && c.author in d.users && c.review in ReviewIds(d.reviews)
    ensures DbOk(d.(comments := d.comments + [c], nextCommentId := d.nextCommentId + 1))
  {
    AppendKeepsIncreasing(d.comments, c, CommentKey);
  }

  /** A signup that passed validation keeps every constraint of the database. */
  lemma SignupKeepsDbOk(d: Db, req: SignupRequest, code: string)
    ensures DbOk(d) && CheckSignup(d.users, req, false).Ok? ==>
      DbOk(d.(users := SignupUsers(d.users, d.nextUserId, req, code),
              nextUserId := if UsernameTaken(d.users, req.username) then d.nextUserId else d.nextUserId + 1))
  {
    if DbOk(d) && CheckSignup(d.users, req, false).Ok? {
      SignupKeepsUsersOk(d.users, d.nextUserId, req, code);
      NewUsersKeepDbOk(d, SignupUsers(d.users, d.nextUserId, req, code),
                       if UsernameTaken(d.users, req.username) then d.nextUserId else d.nextUserId + 1);
    }
  }

  // ----------------------------------------------------------------- store

  /** The persistent store the views read and write. */
  class Store {
    var db: Db
    ghost var outbox: seq<Mail>  // confirmation mails handed to the transport

    ghost predicate Valid()
      reads this
    {
      DbOk(db)
    }

    constructor ()
      ensures Valid()
      ensures db == Db(map[], 0, map[], map[], map[], 0, [], 0, [], 0) && outbox == []
    {
      db := Db(map[], 0, map[], map[], map[], 0, [], 0, [], 0);
      outbox := [];
    }

    /** UserRegistrationView.post, with the generated confirmation code passed in. */
    method Signup(req: SignupRequest, code: string) returns (r: Result<SignupRequest>)
      requires Valid()
      modifies this
      ensures Valid()
      ensures r == CheckSignup(old(db).users, req, false)
      ensures r.Ok? ==> db == old(db).(users := SignupUsers(old(db).users, old(db).nextUserId, req, code),
                                       nextUserId := if UsernameTaken(old(db).users, req.username)
                                                     then old(db).nextUserId else old(db).nextUserId + 1)
      ensures r.Ok? ==> outbox == old(outbox) + [Mail(req.email, code)]
      ensures r.Err? ==> db == old(db) && outbox == old(outbox)
    {
      r := CheckSignup(db.users, req, false);
      if r.Err? {
        return;
      }
      SignupKeepsDbOk(db, req, code);
      var users, nextId := db.users, db.nextUserId;
      var existing := FindUser(users, req.username);
      var id: UserId;
      var user: UserRecord;
      if existing.None? {
        id, user := nextId, RegisteredUser(req);  // serializer.save() creates the row
        nextId := nextId + 1;
      } else {
        id := existing.value;
        user := users[id];
      }
      // `id` is the row that get_object_or_404 finds by the username; its code is replaced
      users := users[id := user.(code := Some(code))];
      outbox := outbox + [Mail(user.email, code)];
      assert users == SignupUsers(db.users, db.nextUserId, req, code);
      db := db.(users := users, nextUserId := nextId);
    }

    /** TokenView.post: nothing is written, so the same exchange succeeds again. */
    method ExchangeToken(username: string, code: string) returns (r: Result<Token>)
      requires Valid()
      ensures r == ValidateToken(db.users, username, code)
      ensures r.Ok? ==> r.value.user in db.users && db.users[r.value.user].code == Some(code)
    {
      r := ValidateToken(db.users, username, code);
      if r.Err? {
        return;
      }
      var id := FindUser(db.users, username).value;
      r := Ok(AccessToken(id));
    }

    /** ReviewViewSet.get_queryset: the reviews of the path title, in creation order. */
    function ReviewsOfTitle(titleId: TitleId): (r: Result<seq<Review>>)
      reads this
      ensures titleId !in db.titles <==> r == Err(NotFound)
      ensures r.Ok? ==> forall rv | rv in r.value :: rv in db.reviews && rv.title == titleId
      ensures r.Ok? ==> forall rv | rv in db.reviews && rv.title == titleId :: rv in r.value
      ensures r.Ok? && Increasing(db.reviews, ReviewKey) ==> Increasing(r.value, ReviewKey)
    {
      if titleId !in db.titles then Err(NotFound)
      else
        FilterKeepsIncreasing(db.reviews, OnTitle(titleId), ReviewKey);
        Ok(Filter(db.reviews, OnTitle(titleId)))
    }

    /** CommentViewSet.get_queryset: the comments of a review that belongs to the path title. */
    function CommentsOfReview(titleId: TitleId, reviewId: ReviewId): (r: Result<seq<Comment>>)
      reads this
      ensures r == Err(NotFound) <==> !exists rv | rv in db.reviews :: rv.id == reviewId && rv.title == titleId
      ensures r.Ok? ==> forall c | c in r.value :: c in db.comments && c.review == reviewId
      ensures r.Ok? ==> forall c | c in db.comments && c.review == reviewId :: c in r.value
      ensures r.Ok? && Increasing(db.comments, CommentKey) ==> Increasing(r.value, CommentKey)
    {
      match FindReview(db.reviews, reviewId, titleId)
      case None => Err(NotFound)
      case Some(rv) =>
        FilterKeepsIncreasing(db.comments, CommentOn(rv.id), CommentKey);
        Ok(Filter(db.comments, CommentOn(rv.id)))
    }

    /**
     * Review creation: the score validators, ReviewSerializer.validate on POST,
     * then perform_create with the requester as author and the path title.
     */
    method CreateReview(author: UserId, titleId: TitleId, data: ReviewInput) returns (r: Result<Review>)
      requires Valid() && author in db.users
      modifies this`db
      ensures Valid()
      ensures !ScoreIsValid(data.score) ==> r == Err(FieldError("score"))
      ensures ScoreIsValid(data.score) && titleId !in old(db).titles ==> r == Err(NotFound)
      ensures r.Ok? <==>
        ScoreIsValid(data.score) && titleId in old(db).titles &&
        !exists rv | rv in old(db).reviews :: rv.author == author && rv.title == titleId
      ensures r.Err? && ScoreIsValid(data.score) && titleId in old(db).titles ==>
        r.error == ValidationError(ReviewOnlyOnce)
      ensures r.Ok? ==> r.value == Review(old(db).nextReviewId, author, titleId, data.text, data.score)
      ensures r.Ok? ==> db == old(db).(reviews := old(db).reviews + [r.value], nextReviewId := old(db).nextReviewId + 1)
      ensures r.Err? ==> db == old(db)
    {
      if !ScoreIsValid(data.score) {
        return Err(FieldError("score"));
      }
      var checked := ValidateReview(db.reviews, db.titles.Keys, author, Post, titleId, data);
      if checked.Err? {
        return Err(checked.error);
      }
      var review := Review(db.nextReviewId, author, titleId, data.text, data.score);
      AppendReviewKeepsOk(db, review);
      db := db.(reviews := db.reviews + [review], nextReviewId := db.nextReviewId + 1);
      r := Ok(review);
    }

    /** CommentViewSet.perform_create: the review must match both path ids. */
    method CreateComment(author: UserId, titleId: TitleId, reviewId: ReviewId, text: string)
      returns (r: Result<Comment>)
      requires Valid() && author in db.users
      modifies this`db
      ensures Valid()
      ensures r.Err? <==> !exists rv | rv in old(db).reviews :: rv.id == reviewId && rv.title == titleId
      ensures r.Err? ==> r.error == NotFound && db == old(db)
      ensures r.Ok? ==> r.value == Comment(old(db).nextCommentId, author, reviewId, text)
      ensures r.Ok? ==> db == old(db).(comments := old(db).comments + [r.value], nextCommentId := old(db).nextCommentId + 1)
    {
      var found := FindReview(db.reviews, reviewId, titleId);
      if found.None? {
        return Err(NotFound);
      }
      var comment := Comment(db.nextCommentId, author, found.value.id, text);
      AppendCommentKeepsOk(db, comment);
      db := db.(comments := db.comments + [comment], nextCommentId := db.nextCommentId + 1);
      r := Ok(comment);
    }

    /** UserViewSet.me on PATCH: a partial update of the requester's own row. */
    method MePatch(actor: UserId, p: UserPatch) returns (r: Result<UserRecord>)
      requires Valid() && actor in db.users
      modifies this`db
      ensures Valid()
      ensures r.Ok? <==>
        PatchError(old(db).users, actor, p, IsAdminPermission(Request(RequesterOf(old(db).users, actor), Patch))).None?
      ensures r.Err? ==>
        Some(r.error) == PatchError(old(db).users, actor, p, IsAdminPermission(Request(RequesterOf(old(db).users, actor), Patch)))
      ensures r.Err? ==> db == old(db)
      ensures r.Ok? ==> db == old(db).(users := old(db).users[actor := r.value])
      ensures r.Ok? ==> r.value == ApplyPatch(old(db).users[actor], p,
                                              IsAdminPermission(Request(RequesterOf(old(db).users, actor), Patch)))
      ensures r.Ok? && r.value.role != old(db).users[actor].role ==>
        old(db).users[actor].isSuperuser || old(db).users[actor].role == AdminRole
    {
      var readOnly := GetFields(RequesterOf(db.users, actor));
      var roleWritable := !readOnly["role"];
      var e := PatchError(db.users, actor, p, roleWritable);
      if e.Some? {
        return Err(e.value);
      }
      PatchKeepsUsersOk(db.users, db.nextUserId, actor, p, roleWritable);
      var updated := ApplyPatch(db.users[actor], p, roleWritable);
      NewUsersKeepDbOk(db, db.users[actor := updated], db.nextUserId);
      db := db.(users := db.users[actor := updated]);
      r := Ok(updated);
    }

    /** Deleting a user cascades to the user's reviews, the user's comments and the comments on the removed reviews. */
    method DeleteUser(u: UserId)
      requires Valid()
      modifies this`db
      ensures Valid()
      ensures db == DeleteUserDb(old(db), u)
    {
      DeleteUserKeepsOk(db, u);
      db := DeleteUserDb(db, u);
    }

    /** Deleting a title cascades to its reviews and, through them, to their comments. */
    method DeleteTitle(t: TitleId)
      requires Valid()
      modifies this`db
      ensures Valid()
      ensures db == DeleteTitleDb(old(db), t)
    {
      DeleteTitleKeepsOk(db, t);
      db := DeleteTitleDb(db, t);
    }

    /** Deleting a review removes exactly its comments. */
    method DeleteReview(id: ReviewId)
      requires Valid()
      modifies this`db
      ensures Valid()
      ensures db == DeleteReviewDb(old(db), id)
    {
      DeleteReviewKeepsOk(db, id);
      db := DeleteReviewDb(db, id);
    }

    method DeleteComment(id: CommentId)
      requires Valid()
      modifies this`db
      ensures Valid()
      ensures db == old(db).(comments := Filter(old(db).comments, CommentIsNot(id)))
    {
      FilterCommentsOk(db.comments, CommentIsNot(id), db.reviews, db.users, db.nextCommentId, db.reviews, db.users);
      db := db.(comments := Filter(db.comments, CommentIsNot(id)));
    }

    /** Deleting a category keeps every title and nulls the references to it. */
    method DeleteCategory(slug: Slug)
      requires Valid()
      modifies this`db
      ensures Valid()
      ensures db == old(db).(categories := old(db).categories - {slug}, titles := ClearCategory(old(db).titles, slug))
    {
      db := db.(categories := db.categories - {slug}, titles := ClearCategory(db.titles, slug));
    }

    /** Deleting a genre removes it from every title's genres; the titles stay. */
    method DeleteGenre(slug: Slug)
      requires Valid()
      modifies this`db
      ensures Valid()
      ensures db == old(db).(genres := old(db).genres - {slug}, titles := DropGenre(old(db).titles, slug))
    {
      db := db.(genres := db.genres - {slug}, titles := DropGenre(db.titles, slug));
    }

    /** Category creation: name and slug lengths, slug uniqueness. */
    method AddCategory(slug: Slug, name: string) returns (r: Result<Slug>)
      requires Valid()
      modifies this`db
      ensures Valid()
      ensures r.Ok? <==> |name| <= CatalogNameMaxLength && |slug| <= SlugMaxLength && slug !in old(db).categories
      ensures r.Ok? ==> db == old(db).(categories := old(db).categories[slug := name])
      ensures r.Err? ==> db == old(db) && r.error.FieldError?
    {
      if |name| > CatalogNameMaxLength {
        return Err(FieldError("name"));
      }
      if |slug| > SlugMaxLength || slug in db.categories {
        return Err(FieldError("slug"));
      }
      db := db.(categories := db.categories[slug := name]);
      r := Ok(slug);
    }

    /** Genre creation: name and slug lengths, slug uniqueness. */
    method AddGenre(slug: Slug, name: string) returns (r: Result<Slug>)
      requires Valid()
      modifies this`db
      ensures Valid()
      ensures r.Ok? <==> |name| <= CatalogNameMaxLength && |slug| <= SlugMaxLength && slug !in old(db).genres
      ensures r.Ok? ==> db == old(db).(genres := old(db).genres[slug := name])
      ensures r.Err? ==> db == old(db) && r.error.FieldError?
    {
      if |name| > CatalogNameMaxLength {
        return Err(FieldError("name"));
      }
      if |slug| > SlugMaxLength || slug in db.genres {
        return Err(FieldError("slug"));
      }
      db := db.(genres := db.genres[slug := name]);
      r := Ok(slug);
    }

    /** Title creation through the create/update serializer: existing genre and category slugs. */
    method AddTitle(name: string, year: int, description: string, genreSlugs: set<Slug>, category: Slug)
      returns (r: Result<TitleId>)
      requires Valid()
      modifies this`db
      ensures Valid()
      ensures r.Ok? <==>
        |name| <= CatalogNameMaxLength && 0 <= year <= SmallIntMax &&
        genreSlugs <= old(db).genres.Keys && category in old(db).categories
      ensures r.Ok? ==> r.value == old(db).nextTitleId
      ensures r.Ok? ==> db == old(db).(titles := old(db).titles[r.value := Title(name, year, description, genreSlugs, Some(category))],
                                       nextTitleId := old(db).nextTitleId + 1)
      ensures r.Err? ==> db == old(db) && r.error.FieldError?
    {
      if |name| > CatalogNameMaxLength {
        return Err(FieldError("name"));
      }
      if year < 0 || year > SmallIntMax {
        return Err(FieldError("year"));
      }
      if !(genreSlugs <= db.genres.Keys) {
        return Err(FieldError("genre"));
      }
      if category !in db.categories {
        return Err(FieldError("category"));
      }
      var id := db.nextTitleId;
      db := db.(titles := db.titles[id := Title(name, year, description, genreSlugs, Some(category))],
                nextTitleId := db.nextTitleId + 1);
      r := Ok(id);
    }
  }
}
