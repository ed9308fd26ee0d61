# Role-based admin console: access control, session and registries in Dafny

This project models the logic under the JSX of a small role-based admin single-page
application. It has three parts.

- **Access control** (`app.dfy`, module `App`). The `ProtectedRoute` guard decides, from the
  session and a route's `requiredRole`, whether to render the page or redirect to `/login` or
  `/dashboard`. The route table ties `/dashboard`, `/users`, `/roles` and `/team` to their
  constraints and sends every other path to `/login`. `getSidebarItems` builds the role's
  ordered menu. The main lemma shows that the menu and the guard agree: for every role, the
  sidebar lists exactly the protected routes the guard lets that role reach.
- **Authentication** (`auth_context.dfy`, module `AuthContext`). This part holds the closed
  role catalog `UserRoles` and the mock directory of one identity per role. A `Session` class
  holds `user: Option<Identity>`. `Login` installs the directory entry for a requested role
  string, or reports failure and leaves the session alone. `Logout` clears the session.
- **Registries** (`role_management.dfy`, `user_management.dfy`). Each page keeps an ordered list
  of records seeded with four rows, plus the add dialog's draft. These become a class with
  `seq` and draft fields. Adding is validated in the source's order and appends a record
  whose id is `String(length + 1)`. Deleting filters by id. The role draft has a permission
  toggle. The user form checks e-mails with the anchored pattern `^[^\s@]+@[^\s@]+\.[^\s@]+$`.
  Each class keeps an invariant that every method preserves. For roles: every record is
  filled in, has no duplicate permissions, and names are unique under lower-casing. For
  users: every record has a name and a well-shaped e-mail.

Shared pieces are kept in their own files:
- `wrappers.dfy`: the `Option` and `Status` types.
- `seqs.dfy`: `Array.prototype.filter` as `Filter`, with its order and membership lemmas, and "no two
  elements share a key".
- `text.dfy`: ASCII lower-casing, the ECMAScript `\s` character set, and `String(n)` for
  naturals, proved to round-trip through its decimal value.

A few behaviours of the code shape the model:
- `login` takes any string, and the login form starts with `''`. `Login` takes a string, and
  `EmptySelectionRefused` covers `''`.
- A role's permissions are an ordered list that the toggle edits, so the model uses a
  sequence and proves that the toggle keeps it free of duplicates.
- Delete returns nothing and silently does nothing for an unknown id, and so does the model.

Ids can collide after a delete, because the next id is the list length plus one. The model
keeps that behaviour, and `UserManagement.IdsCollideAfterDelete` exhibits the collision on
the seeded list. No duplicate-e-mail check exists, and `UserManagement.DuplicateEmailAccepted`
shows it.

## Model

| member | source | states |
|---|---|---|
| `App.Guard` | src/App.jsx:253-268 | With no session the result is a redirect to `/login`, whatever the constraint. With a session it is Allow exactly when the role is in the set the constraint admits: every role when there is no constraint, the one role, or the array's members. Any other outcome is a redirect to `/dashboard`, never `/login`. |
| `App.SidebarItems` | src/App.jsx:93-100 | Every menu, for any role string or none, has at least one entry, and the first entry is Dashboard → `/dashboard`. |
| `App.MenuTable` | src/App.jsx:102-137 | The exact menus: SUPERADMIN gets Dashboard, User Management, Role Management. ADMIN gets Dashboard, User Management. MANAGER gets Dashboard, Team View. Any other role string, or no session, gets Dashboard only. |
| `App.Match` | src/App.jsx:311-346 | The route lookup finds nothing exactly when no route has the path. Otherwise it returns the element of a route listed with that path. |
| `App.MatchListed` | src/App.jsx:311-344 | In a table whose paths are distinct, looking up a listed path yields that route's own element. |
| `App.RoutePathsDistinct` | src/App.jsx:312-345 | No path appears twice in the route table. |
| `App.Navigate` | src/App.jsx:311-346 | A path missing from the table redirects to `/login`. With no session, every path except `/login` redirects to `/login`. `/login` always renders the login page. |
| `App.NavigateListed` | src/App.jsx:312-344 | A listed path renders the login page if it is `/login`. Otherwise it renders its page when the guard allows and follows the guard's redirect when it does not. |
| `App.DashboardOpenToAll` | src/App.jsx:313-320 | `/dashboard` has no constraint, so every signed-in identity is shown the dashboard. |
| `App.AuthenticatedIffDashboard` | src/context/AuthContext.js:66 | `isAuthenticated` holds exactly when the session may open the dashboard. When it is false, the dashboard redirects to `/login`. |
| `App.MenuAgreesAt` | src/App.jsx:321-344 | For one protected route and any identity, the menu lists the route's path exactly when the guard allows that identity's role. |
| `App.MenuAgreesWithGuard` | src/App.jsx:93-137 | For every identity and every protected route, the sidebar offers the path exactly when navigating there renders the page. |
| `App.MenuOnlyProtectedRoutes` | src/App.jsx:102-136 | For any role string, every path in the menu belongs to a protected route of the table. |
| `App.ManagerScenario` | src/App.jsx:126-134 | A signed-in MANAGER sees Dashboard and Team View. `/roles` and the guard `One(SUPERADMIN)` send them to `/dashboard`. `/team` shows them the user-management page. |
| `App.ManagerWalkthrough` | src/context/AuthContext.js:18-54 | From a fresh provider, `/team` first redirects to `/login`. Then `login("MANAGER")` succeeds, after which the menu is Dashboard and Team View, `/roles` redirects to `/dashboard` and `/team` renders the user-management page. |
| `AuthContext.ParseRole` | src/context/AuthContext.js:3-8 | A string parses to a role exactly when it is that role's catalog value. Any other string parses to nothing. |
| `AuthContext.CatalogRoundTrip` | src/context/AuthContext.js:3-8 | Parsing a role's value gives the role back, and no two roles share a value. |
| `AuthContext.Directory` | src/context/AuthContext.js:21-46 | The directory entry for a role carries that role. |
| `AuthContext.DirectoryDistinct` | src/context/AuthContext.js:22-45 | Entries of different roles have different ids and different e-mails. |
| `AuthContext.Lookup` | src/context/AuthContext.js:48-49 | The lookup succeeds exactly for the four catalog values. On success it returns the directory identity whose role value is the requested string. |
| `AuthContext.AfterLogin` | src/context/AuthContext.js:48-53 | The session after `login`: the directory identity when the lookup succeeds, the prior session otherwise. `Session.Login` is proved to produce it, and `LoginIgnoresPrior` and `EmptySelectionRefused` state its properties. |
| `AuthContext.LoginIgnoresPrior` | src/context/AuthContext.js:48-51 | After a successful login the session does not depend on what it held before, so logging in twice equals logging in once. |
| `AuthContext.EmptySelectionRefused` | src/pages/Login.jsx:17-23 | The login form's initial selection `''` is refused and leaves the session as it was. |
| `AuthContext.Session.constructor` | src/context/AuthContext.js:18 | The provider starts with nobody signed in. |
| `AuthContext.Session.Login` | src/context/AuthContext.js:20-54 | Login returns true exactly for catalog role values. On success it installs the directory identity whose role value is the requested string. On failure the session is unchanged. Afterwards the session is authenticated iff the login succeeded or it already was. |
| `AuthContext.Session.Logout` | src/context/AuthContext.js:56-58 | From any state, logout leaves no identity and not authenticated. |
| `AuthContext.Session.IsAuthenticated` | src/context/AuthContext.js:66 | `isAuthenticated` is `!!user`. `Session.Login` and `Session.Logout` state how it changes, and `App.AuthenticatedIffDashboard` proves that it holds exactly when `/dashboard` renders. |
| `Text.Lower` | src/pages/RoleManagement.jsx:97 | `toLowerCase` on ASCII letters. `LowerEqIffIgnoringCase` proves that comparing two folded strings is exactly comparing them ignoring ASCII case. |
| `Text.LowerEqIffIgnoringCase` | src/pages/RoleManagement.jsx:97 | For all strings, `a.toLowerCase() === b.toLowerCase()` holds exactly when `a` and `b` have the same length and agree at every position up to the case of an ASCII letter, a definition that does not use folding. |
| `Text.NatToString` | src/pages/RoleManagement.jsx:108 | `String(n)` is a non-empty digit string that reads back as `n` and has no leading zero. |
| `Seqs.Filter` | src/pages/RoleManagement.jsx:119 | `filter` keeps exactly the elements that satisfy the predicate and never grows the list. |
| `Seqs.FilterAppend` | src/pages/UserManagement.jsx:100 | `filter` distributes over concatenation, so survivors keep their relative order. |
| `RoleManagement.ValidateRole` | src/pages/RoleManagement.jsx:77-104 | The draft is accepted iff name, description and permissions are non-empty and no existing name matches under lower-casing. Otherwise the error is the first failing check in the order name, description, permissions, duplicate, with the source's message. A name of spaces passes the name check. |
| `RoleManagement.NameTaken` | src/pages/RoleManagement.jsx:96-98 | The duplicate test of `handleAddRole` on lower-cased names. `NameTakenIgnoringCase` proves that it holds exactly when some record's name equals the draft's name ignoring ASCII case, and `SeededAddScenarios` shows that it rejects 'admin' and admits 'ops' in the seeded registry. |
| `RoleManagement.NameTakenIgnoringCase` | src/pages/RoleManagement.jsx:96-98 | For every registry and name, the duplicate test succeeds exactly when some record's name equals the name ignoring ASCII case. |
| `RoleManagement.Toggle` | src/pages/RoleManagement.jsx:122-128 | Removes every copy of a present permission and appends an absent one. `ToggleMembership`, `ToggleTwiceRestores` and `TogglePreservesNoDuplicates` state its properties. |
| `RoleManagement.SeedWellFormed` | src/pages/RoleManagement.jsx:33-58 | The seeded roles satisfy the registry invariant: all fields filled in, no repeated permission, and distinct lower-cased names. |
| `RoleManagement.AddKeepsWellFormed` | src/pages/RoleManagement.jsx:96-109 | Appending an accepted draft keeps the invariant, including unique lower-cased names. |
| `RoleManagement.DeleteKeepsWellFormed` | src/pages/RoleManagement.jsx:118-120 | Deleting by id keeps the invariant. |
| `RoleManagement.DeleteRoleProperties` | src/pages/RoleManagement.jsx:118-120 | Delete keeps exactly the records whose id differs and preserves their order, since it splits over concatenation. It is a no-op when no record has the id. |
| `RoleManagement.ToggleMembership` | src/pages/RoleManagement.jsx:122-128 | The toggle flips the membership of the toggled permission, appends an absent permission at the end, and leaves every other permission's membership as it was. |
| `RoleManagement.ToggleTwiceRestores` | src/pages/RoleManagement.jsx:122-128 | Toggling an absent permission twice restores the original list. |
| `RoleManagement.TogglePreservesNoDuplicates` | src/pages/RoleManagement.jsx:122-128 | A permission list without duplicates keeps none after a toggle. |
| `RoleManagement.SeededAddScenarios` | src/pages/RoleManagement.jsx:96-109 | Against the seeded registry, 'admin' is refused as a duplicate of 'ADMIN'. 'ops' is accepted and becomes the fifth record, with id '5'. |
| `RoleManagement.CanModifyRoles` | src/pages/RoleManagement.jsx:131 | `canModifyRoles` is true for a signed-in SUPERADMIN and false otherwise. `CanModifyRolesIffRolePage` proves that it agrees with the `/roles` guard. |
| `RoleManagement.CanModifyRolesIffRolePage` | src/pages/RoleManagement.jsx:131 | `canModifyRoles` holds exactly for the sessions the `/roles` guard lets in, which are signed-in SUPERADMINs. It is false with no session. |
| `RoleManagement.RoleRegistry.constructor` | src/pages/RoleManagement.jsx:33-74 | The page starts with the seeded roles and an empty draft, and the invariant holds. |
| `RoleManagement.RoleRegistry.EditName` | src/pages/RoleManagement.jsx:258 | Editing the name changes only the draft's name. |
| `RoleManagement.RoleRegistry.EditDescription` | src/pages/RoleManagement.jsx:269 | Editing the description changes only the draft's description. |
| `RoleManagement.RoleRegistry.TogglePermission` | src/pages/RoleManagement.jsx:122-129 | Only the draft's permissions change, and they become the toggled list. The invariant is kept. |
| `RoleManagement.RoleRegistry.AddRole` | src/pages/RoleManagement.jsx:77-116 | The status is the validation result. On success the old list stays as a prefix, exactly one record with id `String(oldLength+1)` is appended last, and the draft is reset. On error nothing changes. The invariant is kept. |
| `RoleManagement.RoleRegistry.DeleteRole` | src/pages/RoleManagement.jsx:118-120 | The list becomes the filtered list, the draft is untouched, and the invariant is kept. |
| `UserManagement.EmailCheckMatchesPattern` | src/pages/UserManagement.jsx:80 | The check (no whitespace, exactly one '@', a non-empty local part, a '.' in the domain that is neither its first nor its last character) accepts exactly the strings the anchored regular expression matches. |
| `UserManagement.MatchesEmailPattern` | src/pages/UserManagement.jsx:80 | The regular expression read as its structure: three non-empty runs without whitespace or '@', joined by '@' and a '.'. |
| `UserManagement.IsValidEmail` | src/pages/UserManagement.jsx:80 | The index form of the same check, which `EmailCheckMatchesPattern` proves equivalent to `MatchesEmailPattern`. |
| `UserManagement.ValidateUser` | src/pages/UserManagement.jsx:73-85 | The draft is accepted iff name and e-mail are non-empty and the e-mail matches the pattern. An empty field is reported before any shape check. The result does not depend on the registry. |
| `UserManagement.SeedWellFormed` | src/pages/UserManagement.jsx:37-62 | Every seeded user has a name and an e-mail that passes the page's own check. |
| `UserManagement.DeleteUserProperties` | src/pages/UserManagement.jsx:99-101 | Delete keeps exactly the records whose id differs and preserves their order. It is a no-op for an unknown id. |
| `UserManagement.DeleteKeepsWellFormed` | src/pages/UserManagement.jsx:99-101 | Deleting by id keeps every record named and well shaped. |
| `UserManagement.DuplicateEmailAccepted` | src/pages/UserManagement.jsx:73-90 | A named draft whose e-mail is already registered passes validation, because there is no duplicate-e-mail check. |
| `UserManagement.IdsCollideAfterDelete` | src/pages/UserManagement.jsx:87-90 | In the seeded registry, deleting '1' and then adding any user leaves four records, and the last two both have id '4'. |
| `UserManagement.CanModifyUsers` | src/pages/UserManagement.jsx:103 | `canModifyUsers` is true for a signed-in SUPERADMIN or ADMIN and false otherwise. `CanModifyUsersIffUsersPage` proves that it agrees with the `/users` guard. |
| `UserManagement.CanModifyUsersIffUsersPage` | src/pages/UserManagement.jsx:103 | `canModifyUsers` holds exactly for the sessions the `/users` guard lets in, which are SUPERADMIN and ADMIN. A MANAGER reaches the same page through `/team` but may not change it. |
| `UserManagement.RoleColor` | src/pages/UserManagement.jsx:105-113 | SUPERADMIN, ADMIN and MANAGER get error, primary and secondary. USER and any string outside the catalog get 'default'. |
| `UserManagement.UserRegistry.constructor` | src/pages/UserManagement.jsx:37-70 | The page starts with the seeded users and an empty draft whose role is USER, and the invariant holds. |
| `UserManagement.UserRegistry.EditName` | src/pages/UserManagement.jsx:234 | Editing the name changes only the draft's name. |
| `UserManagement.UserRegistry.EditEmail` | src/pages/UserManagement.jsx:244 | Editing the e-mail changes only the draft's e-mail. |
| `UserManagement.UserRegistry.EditRole` | src/pages/UserManagement.jsx:252 | Picking a role changes only the draft's role. |
| `UserManagement.UserRegistry.AddUser` | src/pages/UserManagement.jsx:73-97 | The status is the validation result and depends only on the draft. On success one record, with id `String(oldLength+1)` and the draft's name, e-mail and role, is appended after the unchanged old list, and the draft is reset to empty fields with role USER. On error nothing changes. |
| `UserManagement.UserRegistry.DeleteUser` | src/pages/UserManagement.jsx:99-101 | The list becomes the filtered list, the draft is untouched, and the invariant is kept. |

## Left out

- Rendering, Material UI components, framer-motion animation, the theme, and the sidebar's
  open/closed state are presentation and carry no decision logic.
- Dialog open/close flags and the validation-dialog text are not modelled. A validation
  failure is the returned `Status` message instead.
- Router mechanics (`Navigate`, `useNavigate`, `replace`, history) are reduced to the `Screen`
  value that `App.Navigate` returns.
- App.Navigate: paths are compared exactly. The router's case-insensitive and trailing-slash
  matching are not modelled.
- React's state scheduling and stale closures are not modelled. Each handler is one atomic
  step on the current state.
- Text.Lower: only ASCII letters are folded. `toLowerCase` also folds the rest of Unicode.
- AuthContext.Lookup: only the four catalog values are keys. In the source,
  `mockUsers[role]` also resolves inherited object keys such as `'toString'`, which would
  make `login` succeed with a non-identity.
- UserManagement.RoleColor: the same inherited-key lookup is left out, so `'toString'` maps to
  'default' here.
- Identity and record roles are the `Role` datatype. In the source they are strings, but
  they always come from the catalog through the directory or the role select.
- RoleManagement.Toggle accepts any permission string. The page only offers the five
  `permissionOptions`, and that list is not part of this model.
- `src/pages/Dashboard.jsx` only displays the session's fields and is not part of this
  model. Of `src/pages/Login.jsx`, only its initial `''` selection is used.
