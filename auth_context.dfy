/**
 * The authentication context: the role catalog, the fixed mock directory of
 * identities, and the session that `login` fills and `logout` clears.
 */
module AuthContext {
  import opened Wrappers

  /** The closed role catalog `UserRoles`. */
  datatype Role = SUPERADMIN | ADMIN | MANAGER | USER

  /** The string value of a catalog entry; in the catalog every key equals its value. */
  function RoleName(r: Role): string
  {
    match r
    case SUPERADMIN => "SUPERADMIN"
    case ADMIN => "ADMIN"
    case MANAGER => "MANAGER"
    case USER => "USER"
  }

  /** The catalog entry whose value is `s`, if any. */
  function ParseRole(s: string): (r: Option<Role>)
    ensures r.Some? ==> RoleName(r.value) == s
    ensures r.None? ==> forall x: Role :: RoleName(x) != s
  {
    if s == "SUPERADMIN" then Some(SUPERADMIN)
    else if s == "ADMIN" then Some(ADMIN)
    else if s == "MANAGER" then Some(MANAGER)
    else if s == "USER" then Some(USER)
    else None
  }

  /** The catalog has four distinct values, and parsing a value gives back its role. */
  lemma CatalogRoundTrip(r: Role)
    ensures ParseRole(RoleName(r)) == Some(r)
    ensures forall x: Role :: RoleName(x) == RoleName(r) ==> x == r
  {
  }

  /** A signed-in user's profile. */
  datatype Identity = Identity(id: string, email: string, name: string, role: Role)

  /** The mock directory `mockUsers`: one canned identity per role. */
  function Directory(r: Role): (u: Identity)
    ensures u.role == r
  {
    match r
    case SUPERADMIN => Identity("1", "superadmin@example.com", "Super Admin", SUPERADMIN)
    case ADMIN => Identity("2", "admin@example.com", "Admin", ADMIN)
    case MANAGER => Identity("3", "manager@example.com", "Manager", MANAGER)
    case USER => Identity("4", "user@example.com", "Regular User", USER)
  }

  /** The directory's identities are told apart by id and by email. */
  lemma DirectoryDistinct(a: Role, b: Role)
    requires a != b
    ensures Directory(a).id != Directory(b).id
    ensures Directory(a).email != Directory(b).email
  {
  }

  /** `mockUsers[roleName]`: the directory entry keyed by the requested role, if the catalog has it. */
  function Lookup(roleName: string): (u: Option<Identity>)
    ensures u.Some? <==> exists r: Role :: RoleName(r) == roleName
    ensures u.Some? ==> RoleName(u.value.role) == roleName && u.value == Directory(u.value.role)
  {
    match ParseRole(roleName)
    case Some(r) => Some(Directory(r))
    case None => None
  }

  /** The session that `login(roleName)` leaves behind, starting from `prior`. */
  function AfterLogin(prior: Option<Identity>, roleName: string): Option<Identity>
  {
    match Lookup(roleName)
    case Some(u) => Some(u)
    case None => prior
  }

  /** A successful login forgets the prior session, so logging in twice is logging in once. */
  lemma LoginIgnoresPrior(p: Option<Identity>, q: Option<Identity>, roleName: string)
    ensures Lookup(roleName).Some? ==> AfterLogin(p, roleName) == AfterLogin(q, roleName)
    ensures AfterLogin(AfterLogin(p, roleName), roleName) == AfterLogin(p, roleName)
  {
  }

  /** The role selection the login form starts with, the empty string, is refused. */
  lemma EmptySelectionRefused(prior: Option<Identity>)
    ensures Lookup("") == None
    ensures AfterLogin(prior, "") == prior
  {
  }

  /** The session state of the authentication provider: at most one identity. */
  class Session {
    var user: Option<Identity>

    /** A fresh provider has nobody signed in. */
    constructor ()
      ensures user == None
    {
      user := None;
    }

    /** `isAuthenticated`: somebody is signed in. */
    predicate IsAuthenticated()
      reads this
    {
      user.Some?
    }

    /** `login({role: roleName})`: installs the directory identity for the role, or reports failure. */
    method Login(roleName: string) returns (ok: bool)
      modifies this
      ensures ok <==> exists r: Role :: RoleName(r) == roleName
      ensures user == AfterLogin(old(user), roleName)
      ensures ok ==> user == Some(Directory(user.value.role)) && RoleName(user.value.role) == roleName
      ensures !ok ==> user == old(user)
      ensures IsAuthenticated() <==> ok || old(IsAuthenticated())
    {
      var authenticatedUser := Lookup(roleName);
      if authenticatedUser.Some? {
        user := authenticatedUser;
        return true;
      }
      return false;
    }

    /** `logout()`: clears the session whatever it held. */
    method Logout()
      modifies this
      ensures user == None && !IsAuthenticated()
    {
      user := None;
    }
  }
}
