/**
 * The schema of the review platform: users with roles, the catalogue
 * (categories, genres, titles), reviews and comments, with the field
 * constraints the models declare.
 */
module Models {
  import opened Common

  type UserId = nat
  type TitleId = nat
  type ReviewId = nat
  type CommentId = nat
  type Slug = string

  const UsernameMaxLength := 150
  const EmailMaxLength := 254     // the default length of an email field
  const PersonNameMaxLength := 150  // first_name and last_name of the base user model
  const SlugMaxLength := 50
  const CatalogNameMaxLength := 256
  const ScoreMin := 1
  const ScoreMax := 10
  const SmallIntMax := 32767      // upper bound of a positive small integer field

  /**
   * The stored role. The three choices are the constants of the roles module;
   * OtherRole stands for any stored text that is none of them.
   */
  datatype Role = UserRole | ModeratorRole | AdminRole | OtherRole(value: string)

  predicate IsChoice(r: Role) {
    !r.OtherRole?
  }

  const DefaultRole: Role := UserRole

  /** A row of the user table; the primary key is the map key of the store. */
  datatype UserRecord = UserRecord(
    username: string,
    email: string,
    firstName: string,
    lastName: string,
    bio: string,
    role: Role,
    isSuperuser: bool,
    code: Option<string>)  // the last confirmation code issued, or null

  predicate IsUser(u: UserRecord) { u.role == UserRole }
  predicate IsAdmin(u: UserRecord) { u.role == AdminRole }
  predicate IsModerator(u: UserRecord) { u.role == ModeratorRole }

  /** The role predicates are mutually exclusive, and one holds for every role among the choices. */
  lemma RolePredicatesExclusive(u: UserRecord)
    ensures !(IsUser(u) && IsAdmin(u)) && !(IsUser(u) && IsModerator(u)) && !(IsAdmin(u) && IsModerator(u))
    ensures IsChoice(u.role) <==> IsUser(u) || IsAdmin(u) || IsModerator(u)
  {
  }

  /** The user table, keyed by primary key. */
  type Users = map<UserId, UserRecord>

  /** The unique constraint on username. */
  ghost predicate UniqueUsernames(users: Users) {
    forall a, b | a in users && b in users :: users[a].username == users[b].username ==> a == b
  }

  /** The unique constraint on email. */
  ghost predicate UniqueEmails(users: Users) {
    forall a, b | a in users && b in users :: users[a].email == users[b].email ==> a == b
  }

  predicate UsernameTaken(users: Users, username: string) {
    exists id | id in users :: users[id].username == username
  }

  predicate EmailTaken(users: Users, email: string) {
    exists id | id in users :: users[id].email == email
  }

  /** `User.objects.get(username=...)`: the one user with this username, if any. */
  function FindUser(users: Users, username: string): (r: Option<UserId>)
    requires UniqueUsernames(users)
    ensures r.Some? <==> UsernameTaken(users, username)
    ensures r.Some? ==> r.value in users && users[r.value].username == username
    ensures forall id | id in users && users[id].username == username :: r == Some(id)
  {
    if exists id | id in users :: users[id].username == username then
      var id :| id in users && users[id].username == username; Some(id)
    else None
  }

  /** The text before one final line break, which is where a regex `$` may match. */
  function StripFinalNewline(s: string): (t: string)
    ensures t == s || t + "\n" == s
    ensures '\n' !in s ==> t == s
  {
    if |s| > 0 && s[|s| - 1] == '\n' then s[..|s| - 1] else s
  }

  /**
   * The model-level username validator `^(?!me$).*$`, searched from the start:
   * `.` does not match a line break and `$` matches at the end or before one
   * final line break.
   */
  predicate NotMePattern(s: string) {
    var t := StripFinalNewline(s);
    '\n' !in t && t != "me"
  }

  /** The model's username constraints other than uniqueness. */
  predicate UsernameFieldValid(s: string)
    ensures UsernameFieldValid(s) ==> |s| <= UsernameMaxLength && s != "me"
    ensures '\n' !in s && |s| <= UsernameMaxLength ==> (UsernameFieldValid(s) <==> s != "me")
  {
    |s| <= UsernameMaxLength && NotMePattern(s)
  }

  /** Unlike the signup check, the model validator is case-sensitive and also rejects a trailing line break after "me". */
  lemma ModelUsernameCaseSensitive()
    ensures !UsernameFieldValid("me") && !UsernameFieldValid("me\n")
    ensures UsernameFieldValid("Me") && UsernameFieldValid("ME") && UsernameFieldValid("mE")
  {
    assert StripFinalNewline("me\n") == "me";
  }

  /** A review score is accepted by the min/max validators exactly in 1..10. */
  predicate ScoreIsValid(score: int) {
    ScoreMin <= score <= ScoreMax
  }

  lemma ScoreBoundaries()
    ensures !ScoreIsValid(0) && ScoreIsValid(1) && ScoreIsValid(10) && !ScoreIsValid(11)
  {
  }

  /** A title; genres and category refer to slugs, which are unique keys of their tables. */
  datatype Title = Title(
    name: string,
    year: int,
    description: string,
    genres: set<Slug>,
    category: Option<Slug>)

  datatype Review = Review(id: ReviewId, author: UserId, title: TitleId, text: string, score: int)

  datatype Comment = Comment(id: CommentId, author: UserId, review: ReviewId, text: string)

  function ReviewKey(r: Review): (k: int) { r.id }
  function CommentKey(c: Comment): (k: int) { c.id }
}
