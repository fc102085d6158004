/**
 * The validators of the serializers: username format, the signup cross-check,
 * the confirmation-code check, the one-review-per-title check, and which user
 * fields are writable.
 */
module Serializers {
  import opened Common
  import opened Models
  import opened Tables
  import opened Permissions

  const MeNotAllowed := "The username 'me' is not allowed"
  const InvalidUsernameFormat := "Invalid username format"
  const EmailAlreadyRegistered := "Email is already registered"
  const UsernameAlreadyTaken := "Username is already taken"
  const InvalidConfirmationCode := "Invalid confirmation code"
  const ReviewOnlyOnce := "Отзыв возможно оставить только один раз!"

  // ---------------------------------------------------------------- username

  /** `\w` restricted to ASCII: letters, digits and underscore. */
  predicate IsWordChar(c: char) {
    ('a' <= c <= 'z') || ('A' <= c <= 'Z') || ('0' <= c <= '9') || c == '_'
  }

  /** The character class `[\w.@+-]`. */
  predicate IsUsernameChar(c: char) {
    IsWordChar(c) || c == '.' || c == '@' || c == '+' || c == '-'
  }

  function LowerChar(c: char): (lower: char) {
    if 'A' <= c <= 'Z' then (c as int + 32) as char else c
  }

  /** `str.lower()` on ASCII letters; other characters are kept. */
  function ToLower(s: string): (t: string)
    ensures |t| == |s|
  {
    seq(|s|, i requires 0 <= i < |s| => LowerChar(s[i]))
  }

  lemma LowerIsMe(s: string)
    ensures ToLower(s) == "me" <==> s in {"me", "Me", "mE", "ME"}
  {
    if ToLower(s) == "me" {
      assert ToLower(s)[0] == 'm' && ToLower(s)[1] == 'e';
      assert |s| == 2 && LowerChar(s[0]) == 'm' && LowerChar(s[1]) == 'e';
      assert s == [s[0], s[1]];
    }
  }

  /**
   * `re.match` of `^[\w.@+-]+` succeeds on the first k characters and `$`
   * matches at position k: at the end, or just before one final line break.
   */
  ghost predicate PatternMatchesUpTo(s: string, k: int) {
    && 1 <= k <= |s|
    && (forall i | 0 <= i < k :: IsUsernameChar(s[i]))
    && (k == |s| || (k == |s| - 1 && s[k] == '\n'))
  }

  /** `re.match(r'^[\w.@+-]+$', s)` */
  function MatchesUsernamePattern(s: string): (matched: bool)
    ensures matched <==> exists k :: PatternMatchesUpTo(s, k)
    ensures matched && '\n' in s ==> s[|s| - 1] == '\n' && '\n' !in s[..|s| - 1]
  {
    var t := StripFinalNewline(s);
    var matched := |t| >= 1 && forall i | 0 <= i < |t| :: IsUsernameChar(t[i]);
    PatternSemantics(s, matched);
    matched
  }

  lemma PatternSemantics(s: string, matched: bool)
    requires var t := StripFinalNewline(s);
      matched == (|t| >= 1 && forall i | 0 <= i < |t| :: IsUsernameChar(t[i]))
    ensures matched <==> exists k :: PatternMatchesUpTo(s, k)
    ensures matched && '\n' in s ==> s[|s| - 1] == '\n' && '\n' !in s[..|s| - 1]
  {
    var t := StripFinalNewline(s);
    if matched {
      assert t == s[..|t|];
      assert PatternMatchesUpTo(s, |t|);
      if '\n' in s {
        assert forall j | 0 <= j < |t| :: t[j] != '\n';
        assert t != s;
        assert s[..|s| - 1] == t;
      }
    }
    if k :| PatternMatchesUpTo(s, k) {
      if k == |s| {
        assert !IsUsernameChar('\n');
        assert s[|s| - 1] != '\n';
        assert t == s;
      } else {
        assert t == s[..k];
      }
    }
  }

  /** UserRegistrationSerializer.validate_username: the "me" ban runs before the format check. */
  function ValidateUsername(value: string): (r: Result<string>)
    ensures r.Ok? ==> r.value == value
    ensures r == Err(ValidationError(MeNotAllowed)) <==> value in {"me", "Me", "mE", "ME"}
    ensures r == Err(ValidationError(InvalidUsernameFormat)) <==>
      value !in {"me", "Me", "mE", "ME"} && !MatchesUsernamePattern(value)
    ensures r.Ok? || r == Err(ValidationError(MeNotAllowed)) || r == Err(ValidationError(InvalidUsernameFormat))
  {
    LowerIsMe(value);
    if ToLower(value) == "me" then Err(ValidationError(MeNotAllowed))
    else if !MatchesUsernamePattern(value) then Err(ValidationError(InvalidUsernameFormat))
    else Ok(value)
  }

  // ------------------------------------------------------------------ signup

  /** The signup payload: username and email, and the optional model fields the serializer lists. */
  datatype SignupRequest = SignupRequest(
    username: string,
    email: string,
    firstName: Option<string>,
    lastName: Option<string>,
    bio: Option<string>,
    role: Option<Role>)

  /** A user with exactly this username and this email exists. */
  predicate PairRegistered(users: Users, username: string, email: string) {
    exists id | id in users :: users[id].username == username && users[id].email == email
  }

  /** UserRegistrationSerializer.validate: the cross-check of username and email against the user table. */
  function ValidateSignupPair(users: Users, req: SignupRequest): (r: Result<SignupRequest>)
    requires UniqueUsernames(users) && UniqueEmails(users)
    ensures r.Ok? ==> r.value == req
    ensures r.Ok? <==>
      PairRegistered(users, req.username, req.email) ||
      (!EmailTaken(users, req.email) && !UsernameTaken(users, req.username))
    ensures r.Ok? ==> forall id | id in users ::
      (users[id].username == req.username <==> users[id].email == req.email)
    ensures r == Err(ValidationError(EmailAlreadyRegistered)) <==>
      !PairRegistered(users, req.username, req.email) && EmailTaken(users, req.email)
    ensures r == Err(ValidationError(UsernameAlreadyTaken)) <==>
      !PairRegistered(users, req.username, req.email) && !EmailTaken(users, req.email) &&
      UsernameTaken(users, req.username)
  {
    if exists id | id in users :: users[id].username == req.username && users[id].email == req.email then
      Ok(req)
    else if exists id | id in users :: users[id].email == req.email then
      Err(ValidationError(EmailAlreadyRegistered))
    else if exists id | id in users :: users[id].username == req.username then
      Err(ValidationError(UsernameAlreadyTaken))
    else
      Ok(req)
  }

  /**
   * The field-level checks of the signup payload: the lengths of the model
   * fields, validate_username, and, where `role` is writable, one of the
   * choices.
   */
  predicate SignupFieldsValid(req: SignupRequest, roleWritable: bool) {
    && |req.email| <= EmailMaxLength && |req.username| <= UsernameMaxLength
    && ValidateUsername(req.username).Ok?
    && (req.firstName.Some? ==> |req.firstName.value| <= PersonNameMaxLength)
    && (req.lastName.Some? ==> |req.lastName.value| <= PersonNameMaxLength)
    && (roleWritable && req.role.Some? ==> IsChoice(req.role.value))
  }

  /**
   * Full signup validation: the field checks in declared order (email,
   * username with validate_username, the names, role), then the cross-check.
   * As written `role` is a writable choice field (`roleWritable`); with it
   * read-only, a submitted role is ignored.
   */
  function CheckSignup(users: Users, req: SignupRequest, roleWritable: bool): (r: Result<SignupRequest>)
    requires UniqueUsernames(users) && UniqueEmails(users)
    ensures r.Ok? ==> r.value == req
    ensures r.Ok? <==> SignupFieldsValid(req, roleWritable) && ValidateSignupPair(users, req).Ok?
    ensures SignupFieldsValid(req, roleWritable) ==> r == ValidateSignupPair(users, req)
    ensures ValidateUsername(req.username).Err? && |req.email| <= EmailMaxLength && |req.username| <= UsernameMaxLength ==>
      r == Err(ValidateUsername(req.username).error)
    ensures !SignupFieldsValid(req, roleWritable) ==>
      r.Err? && (r.error.FieldError? || (ValidateUsername(req.username).Err? && r.error == ValidateUsername(req.username).error))
    ensures r == Err(FieldError("role")) ==> roleWritable && req.role.Some? && !IsChoice(req.role.value)
    ensures r.Err? ==> r.error.ValidationError? || r.error.FieldError?
  {
    if |req.email| > EmailMaxLength then Err(FieldError("email"))
    else if |req.username| > UsernameMaxLength then Err(FieldError("username"))
    else match ValidateUsername(req.username)
      case Err(e) => Err(e)
      case Ok(_) =>
        if req.firstName.Some? && |req.firstName.value| > PersonNameMaxLength then Err(FieldError("first_name"))
        else if req.lastName.Some? && |req.lastName.value| > PersonNameMaxLength then Err(FieldError("last_name"))
        else if roleWritable && req.role.Some? && !IsChoice(req.role.value) then Err(FieldError("role"))
        else ValidateSignupPair(users, req)
  }

  /** Only the cross-check reads the user table: the field checks give the same answer whatever the users are. */
  lemma SignupFieldChecksIgnoreUsers(users: Users, users': Users, req: SignupRequest, roleWritable: bool)
    requires UniqueUsernames(users) && UniqueEmails(users) && UniqueUsernames(users') && UniqueEmails(users')
    requires CheckSignup(users, req, roleWritable).Ok?
    ensures CheckSignup(users', req, roleWritable) == ValidateSignupPair(users', req)
  {
  }

  // ------------------------------------------------------------------- token

  /** The access token, an opaque value bound to one user. */
  datatype Token = AccessToken(user: UserId)

  /**
   * TokenSerializer.validate followed by TokenView.post's lookup. The second
   * existence check in the source is never reached: the lookup before it has
   * already answered NotFound.
   */
  function ValidateToken(users: Users, username: string, code: string): (r: Result<Token>)
    requires UniqueUsernames(users)
    ensures r == Err(NotFound) <==> !UsernameTaken(users, username)
    ensures r.Ok? <==> exists id | id in users :: users[id].username == username && users[id].code == Some(code)
    ensures r.Ok? ==> r.value.user in users && users[r.value.user].username == username
    ensures r.Err? && UsernameTaken(users, username) ==> r.error == ValidationError(InvalidConfirmationCode)
  {
    match FindUser(users, username)
    case None => Err(NotFound)
    case Some(id) =>
      if users[id].code != Some(code) then Err(ValidationError(InvalidConfirmationCode))
      else Ok(AccessToken(id))
  }

  // ------------------------------------------------------------------ review

  /** The writable review fields. */
  datatype ReviewInput = ReviewInput(text: string, score: int)

  function OnTitleBy(title: TitleId, author: UserId): (keep: Review -> bool) {
    (rv: Review) => rv.title == title && rv.author == author
  }

  /**
   * ReviewSerializer.validate: the path title must exist, and on POST no
   * review by the requester for that title may exist yet.
   */
  function ValidateReview(reviews: seq<Review>, titles: set<TitleId>, author: UserId, verb: Method,
                          titleId: TitleId, data: ReviewInput): (r: Result<ReviewInput>)
    ensures titleId !in titles ==> r == Err(NotFound)
    ensures titleId in titles ==>
      (r.Err? <==> verb == Post && exists rv | rv in reviews :: rv.author == author && rv.title == titleId)
    ensures r.Err? && titleId in titles ==> r.error == ValidationError(ReviewOnlyOnce)
    ensures r.Ok? ==> r.value == data
  {
    if titleId !in titles then Err(NotFound)
    else if verb == Post && Filter(reviews, OnTitleBy(titleId, author)) != [] then
      Err(ValidationError(ReviewOnlyOnce))
    else Ok(data)
  }

  // ------------------------------------------------------------ user fields

  const UserFields: set<string> := {"email", "username", "first_name", "last_name", "bio", "role"}

  /**
   * UserSerializer.get_fields: the read-only flag of each field; `role` starts
   * read-only and is made writable for a superuser or an admin context user.
   */
  method GetFields(context: Requester) returns (readOnly: map<string, bool>)
    ensures readOnly.Keys == UserFields
    ensures !readOnly["role"] <==> context.Authenticated? && (context.isSuperuser || context.role == AdminRole)
    ensures readOnly["role"] == !IsAdminPermission(Request(context, Patch))
    ensures forall f | f in readOnly && f != "role" :: !readOnly[f]
  {
    readOnly := map["email" := false, "username" := false, "first_name" := false,
                    "last_name" := false, "bio" := false, "role" := true];
    if IsSuperuser(context) {
      readOnly := readOnly["role" := false];
    }
    if HasRole(context) {
      if context.role == AdminRole {
        readOnly := readOnly["role" := false];
      }
    }
  }
}
