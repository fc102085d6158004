/**
 * The permission classes: boolean decisions over the requester, the HTTP
 * method and, for object checks, the author of the resource.
 */
module Permissions {
  import opened Models

  datatype Method = Get | Head | Options | Post | Put | Patch | Delete

  /**
   * The request's user: the anonymous user has no role attribute and is not a
   * superuser; an authenticated user carries its stored role and superuser flag.
   */
  datatype Requester =
    | Anonymous
    | Authenticated(id: UserId, role: Role, isSuperuser: bool)

  datatype Request = Request(user: Requester, verb: Method)

  const SafeMethods: set<Method> := {Get, Head, Options}

  /** `hasattr(request.user, 'role')` */
  predicate HasRole(u: Requester) { u.Authenticated? }

  /** `request.user.is_superuser`, which is false for the anonymous user */
  predicate IsSuperuser(u: Requester) { u.Authenticated? && u.isSuperuser }

  /** `request.user.is_authenticated` */
  predicate IsAuthenticated(u: Requester) { u.Authenticated? }

  /** IsAdmin.has_permission */
  function IsAdminPermission(req: Request): (granted: bool)
    ensures granted <==> req.user.Authenticated? && (req.user.isSuperuser || req.user.role == AdminRole)
    ensures req.user.Anonymous? ==> !granted
  {
    var result := IsSuperuser(req.user);
    if HasRole(req.user) then result || req.user.role == AdminRole else result
  }

  /** The decision of IsAdmin is the same for every HTTP method. */
  lemma IsAdminIgnoresMethod(u: Requester, m1: Method, m2: Method)
    ensures IsAdminPermission(Request(u, m1)) == IsAdminPermission(Request(u, m2))
  {
  }

  /** ReadOnly.has_permission */
  function ReadOnlyPermission(req: Request): (granted: bool)
    ensures granted <==> req.verb == Get || req.verb == Head || req.verb == Options
  {
    req.verb in SafeMethods
  }

  /** AuthorAdminModerator.has_permission */
  function AuthorAdminModeratorPermission(req: Request): (granted: bool)
    ensures ReadOnlyPermission(req) ==> granted
    ensures !ReadOnlyPermission(req) ==> (granted <==> req.user.Authenticated?)
  {
    req.verb in SafeMethods || IsAuthenticated(req.user)
  }

  /**
   * AuthorAdminModerator.has_object_permission. For the anonymous user on an
   * unsafe method the source raises on `is_admin`; that is modelled as a
   * denial, and has_permission has already denied such a request.
   */
  function AuthorAdminModeratorObjectPermission(req: Request, author: UserId): (granted: bool)
    ensures ReadOnlyPermission(req) ==> granted
    ensures !ReadOnlyPermission(req) ==>
      (granted <==>
        req.user.Authenticated? &&
        (req.user.id == author || req.user.role == AdminRole || req.user.role == ModeratorRole))
    ensures granted ==> AuthorAdminModeratorPermission(req)
  {
    if req.verb in SafeMethods then true
    else match req.user
      case Anonymous => false
      case Authenticated(id, role, _) =>
        id == author || role == AdminRole || role == ModeratorRole
  }

  /** IsAdminOrReadOnly.has_permission */
  function IsAdminOrReadOnlyPermission(req: Request): (granted: bool)
    ensures granted == (ReadOnlyPermission(req) || IsAdminPermission(req))
  {
    if req.verb in SafeMethods then true
    else
      var result := IsSuperuser(req.user);
      if HasRole(req.user) then result || req.user.role == AdminRole else result
  }

  /** The superuser flag alone does not grant the object check for another user's resource. */
  lemma SuperuserIsNotModerator(id: UserId, author: UserId, m: Method)
    requires id != author && m !in SafeMethods
    ensures !AuthorAdminModeratorObjectPermission(Request(Authenticated(id, UserRole, true), m), author)
    ensures IsAdminPermission(Request(Authenticated(id, UserRole, true), m))
  {
  }

  /** The request with the requester's role replaced. */
  function WithRole(req: Request, role: Role): (raised: Request)
    requires req.user.Authenticated?
  {
    Request(req.user.(role := role), req.verb)
  }

  /** Raising a requester from user to moderator or admin never turns a grant into a denial. */
  lemma RaisingRoleKeepsGrants(req: Request, author: UserId, raised: Role)
    requires req.user.Authenticated? && req.user.role == UserRole
    requires raised == ModeratorRole || raised == AdminRole
    ensures IsAdminPermission(req) ==> IsAdminPermission(WithRole(req, raised))
    ensures ReadOnlyPermission(req) ==> ReadOnlyPermission(WithRole(req, raised))
    ensures AuthorAdminModeratorPermission(req) ==> AuthorAdminModeratorPermission(WithRole(req, raised))
    ensures AuthorAdminModeratorObjectPermission(req, author) ==>
      AuthorAdminModeratorObjectPermission(WithRole(req, raised), author)
    ensures IsAdminOrReadOnlyPermission(req) ==> IsAdminOrReadOnlyPermission(WithRole(req, raised))
  {
  }
}
