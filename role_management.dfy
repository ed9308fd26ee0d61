/**
 * The role registry page: an ordered list of role records seeded with the four
 * catalog roles, a draft the add dialog edits, validated append and
 * delete-by-id, and the SUPERADMIN-only capability check.
 */
module RoleManagement {
  import opened Wrappers
  import opened Seqs
  import opened Text
  import opened AuthContext
  import App

  datatype RoleRecord = RoleRecord(id: string, name: string, description: string, permissions: seq<string>)

  /** The add dialog's `currentRole`. */
  datatype RoleDraft = RoleDraft(name: string, description: string, permissions: seq<string>)

  const EmptyRoleDraft := RoleDraft("", "", [])

  const NameRequired := "Role name is required"
  const DescriptionRequired := "Role description is required"
  const PermissionRequired := "At least one permission must be selected"
  const DuplicateName := "role name already exists"

  /** The registry the page starts with. */
  function SeedRoles(): seq<RoleRecord>
  {
    [ RoleRecord("1", RoleName(SUPERADMIN), "Full system access, can manage users and roles", ["ALL"]),
      RoleRecord("2", RoleName(ADMIN), "Can manage users within their organization", ["USER_MANAGEMENT"]),
      RoleRecord("3", RoleName(MANAGER), "Can view and manage team members", ["TEAM_VIEW", "TEAM_MANAGEMENT"]),
      RoleRecord("4", RoleName(USER), "Standard user with limited access", ["DASHBOARD_ACCESS"]) ]
  }

  /** The key role names are compared under: the lower-cased name. */
  function FoldedName(r: RoleRecord): string
  {
    Lower(r.name)
  }

  /** `roles.some(role => role.name.toLowerCase() === name.toLowerCase())`. */
  predicate NameTaken(roles: seq<RoleRecord>, name: string)
  {
    exists i :: 0 <= i < |roles| && Lower(roles[i].name) == Lower(name)
  }

  /** The duplicate test holds exactly when some record's name equals `name` ignoring ASCII case. */
  lemma NameTakenIgnoringCase(roles: seq<RoleRecord>, name: string)
    ensures NameTaken(roles, name) <==> exists i :: 0 <= i < |roles| && EqualIgnoringAsciiCase(roles[i].name, name)
  {
    forall i | 0 <= i < |roles|
      ensures Lower(roles[i].name) == Lower(name) <==> EqualIgnoringAsciiCase(roles[i].name, name)
    {
      LowerEqIffIgnoringCase(roles[i].name, name);
    }
  }

  /**
   * The checks of `handleAddRole`, in the source's order: name, description,
   * permissions, then case-insensitive uniqueness; the first that fails is reported.
   * Only emptiness is checked, so a name of spaces passes the first check.
   */
  function ValidateRole(roles: seq<RoleRecord>, draft: RoleDraft): (s: Status)
    ensures s == Ok <==>
      draft.name != "" && draft.description != "" && draft.permissions != [] && !NameTaken(roles, draft.name)
    ensures draft.name == "" ==> s == Err(NameRequired)
    ensures draft.name != "" && draft.description == "" ==> s == Err(DescriptionRequired)
    ensures draft.name != "" && draft.description != "" && draft.permissions == [] ==> s == Err(PermissionRequired)
    ensures draft.name != "" && draft.description != "" && draft.permissions != [] && NameTaken(roles, draft.name) ==>
      s == Err(DuplicateName)
  {
    if draft.name == "" then Err(NameRequired)
    else if draft.description == "" then Err(DescriptionRequired)
    else if |draft.permissions| == 0 then Err(PermissionRequired)
    else if NameTaken(roles, draft.name) then Err(DuplicateName)
    else Ok
  }

  /** The record an accepted draft becomes: the draft's fields with id `String(roles.length + 1)`. */
  function NewRole(roles: seq<RoleRecord>, draft: RoleDraft): RoleRecord
  {
    RoleRecord(NatToString(|roles| + 1), draft.name, draft.description, draft.permissions)
  }

  /** `roles.filter(r => r.id !== id)`. */
  function WithoutRole(roles: seq<RoleRecord>, id: string): seq<RoleRecord>
  {
    Filter(roles, (r: RoleRecord) => r.id != id)
  }

  /** The permission toggle: remove every occurrence of a present permission, append an absent one. */
  function Toggle(permissions: seq<string>, permission: string): seq<string>
  {
    if permission in permissions then Filter(permissions, (p: string) => p != permission)
    else permissions + [permission]
  }

  /** A record the registry may hold: every field that `handleAddRole` checks is filled in. */
  predicate RecordOk(r: RoleRecord)
  {
    r.name != "" && r.description != "" && r.permissions != [] && NoDuplicates(r.permissions)
  }

  /** What the registry keeps true: well-formed records, and names unique under lower-casing. */
  predicate WellFormed(roles: seq<RoleRecord>)
  {
    (forall i :: 0 <= i < |roles| ==> RecordOk(roles[i])) && DistinctBy(roles, FoldedName)
  }

  /** The seeded registry is well formed. */
  lemma SeedWellFormed()
    ensures WellFormed(SeedRoles())
  {
    var s := SeedRoles();
    assert Lower(s[0].name) == "superadmin";
    assert Lower(s[1].name) == "admin";
    assert Lower(s[2].name) == "manager";
    assert Lower(s[3].name) == "user";
    assert NoDuplicates(s[2].permissions) by {
      assert Itself(s[2].permissions[0]) != Itself(s[2].permissions[1]);
    }
  }

  /** An accepted add keeps the registry well formed: the new name clashes with no existing one. */
  lemma AddKeepsWellFormed(roles: seq<RoleRecord>, draft: RoleDraft)
    requires WellFormed(roles) && NoDuplicates(draft.permissions)
    requires ValidateRole(roles, draft) == Ok
    ensures WellFormed(roles + [NewRole(roles, draft)])
  {
    var r := NewRole(roles, draft);
    forall y | y in roles ensures FoldedName(y) != FoldedName(r) {
      var i :| 0 <= i < |roles| && roles[i] == y;
      assert Lower(roles[i].name) != Lower(draft.name);
    }
    SnocDistinctBy(roles, r, FoldedName);
  }

  /** A delete keeps the registry well formed. */
  lemma DeleteKeepsWellFormed(roles: seq<RoleRecord>, id: string)
    requires WellFormed(roles)
    ensures WellFormed(WithoutRole(roles, id))
  {
    var keep := (r: RoleRecord) => r.id != id;
    FilterDistinctBy(roles, keep, FoldedName);
    var t := WithoutRole(roles, id);
    forall i | 0 <= i < |t| ensures RecordOk(t[i]) {
      assert t[i] in roles;
    }
  }

  /**
   * Delete removes exactly the records with the given id, keeps the others in
   * their order (it splits over concatenation), and is a no-op for an absent id.
   */
  lemma DeleteRoleProperties(roles: seq<RoleRecord>, more: seq<RoleRecord>, id: string)
    ensures forall r :: r in WithoutRole(roles, id) <==> r in roles && r.id != id
    ensures WithoutRole(roles + more, id) == WithoutRole(roles, id) + WithoutRole(more, id)
    ensures (forall i :: 0 <= i < |roles| ==> roles[i].id != id) ==> WithoutRole(roles, id) == roles
  {
    var keep := (r: RoleRecord) => r.id != id;
    FilterAppend(roles, more, keep);
    if forall i :: 0 <= i < |roles| ==> roles[i].id != id {
      FilterKeepsAll(roles, keep);
    }
  }

  /** Toggling flips membership of the toggled permission and leaves every other one alone. */
  lemma ToggleMembership(permissions: seq<string>, permission: string)
    ensures permission in Toggle(permissions, permission) <==> permission !in permissions
    ensures forall q :: q != permission ==> (q in Toggle(permissions, permission) <==> q in permissions)
    ensures permission !in permissions ==> Toggle(permissions, permission) == permissions + [permission]
  {
  }

  /** Toggling an absent permission twice restores the original list. */
  lemma ToggleTwiceRestores(permissions: seq<string>, permission: string)
    requires permission !in permissions
    ensures Toggle(Toggle(permissions, permission), permission) == permissions
  {
    var keep := (p: string) => p != permission;
    FilterAppend(permissions, [permission], keep);
    FilterKeepsAll(permissions, keep);
    assert Filter([permission], keep) == [];
  }

  /** Toggling keeps a list without duplicates free of duplicates. */
  lemma TogglePreservesNoDuplicates(permissions: seq<string>, permission: string)
    requires NoDuplicates(permissions)
    ensures NoDuplicates(Toggle(permissions, permission))
  {
    if permission in permissions {
      FilterDistinctBy(permissions, (p: string) => p != permission, Itself);
    } else {
      SnocDistinctBy(permissions, permission, Itself);
    }
  }

  /** 'admin' is refused against the seeded 'ADMIN'; 'ops' is accepted and becomes the fifth record, with id '5'. */
  lemma SeededAddScenarios()
    ensures ValidateRole(SeedRoles(), RoleDraft("admin", "d", ["TEAM_VIEW"])) == Err(DuplicateName)
    ensures ValidateRole(SeedRoles(), RoleDraft("ops", "d", ["TEAM_VIEW"])) == Ok
    ensures var after := SeedRoles() + [NewRole(SeedRoles(), RoleDraft("ops", "d", ["TEAM_VIEW"]))];
      |after| == 5 && after[4] == RoleRecord("5", "ops", "d", ["TEAM_VIEW"])
  {
    var s := SeedRoles();
    assert Lower(s[1].name) == Lower("admin") == "admin";
    assert Lower("ops") == "ops";
    assert Lower(s[0].name) == "superadmin";
    assert Lower(s[1].name) == "admin";
    assert Lower(s[2].name) == "manager";
    assert Lower(s[3].name) == "user";
  }

  /** `canModifyRoles`: only a signed-in SUPERADMIN may change the registry. */
  function CanModifyRoles(user: Option<Identity>): bool
  {
    match user
    case Some(u) => u.role == SUPERADMIN
    case None => false
  }

  /** The capability check agrees with the route guard: exactly the users it allows can open the role page. */
  lemma CanModifyRolesIffRolePage(user: Option<Identity>)
    ensures CanModifyRoles(user) <==> App.Navigate(user, "/roles") == App.Render(App.PageView(App.RoleManagementPage))
  {
    App.NavigateListed(user, 3);
  }

  /** The page's state: the list of roles and the add dialog's draft. */
  class RoleRegistry {
    var roles: seq<RoleRecord>
    var draft: RoleDraft

    ghost predicate Valid()
      reads this
    {
      WellFormed(roles) && NoDuplicates(draft.permissions)
    }

    /** The page mounts with the seeded roles and an empty draft. */
    constructor ()
      ensures Valid() && roles == SeedRoles() && draft == EmptyRoleDraft
    {
      roles := SeedRoles();
      draft := EmptyRoleDraft;
      SeedWellFormed();
    }

    /** Typing in the name field. */
    method EditName(name: string)
      requires Valid()
      modifies this
      ensures Valid() && roles == old(roles) && draft == old(draft).(name := name)
    {
      draft := draft.(name := name);
    }

    /** Typing in the description field. */
    method EditDescription(description: string)
      requires Valid()
      modifies this
      ensures Valid() && roles == old(roles) && draft == old(draft).(description := description)
    {
      draft := draft.(description := description);
    }

    /** `handleTogglePermission`: flips one permission of the draft. */
    method TogglePermission(permission: string)
      requires Valid()
      modifies this
      ensures Valid() && roles == old(roles)
      ensures draft == old(draft).(permissions := Toggle(old(draft.permissions), permission))
    {
      TogglePreservesNoDuplicates(draft.permissions, permission);
      draft := draft.(permissions := Toggle(draft.permissions, permission));
    }

    /**
     * `handleAddRole`: on the first failing check, reports it and changes nothing;
     * otherwise appends the draft as a new last record and clears the draft.
     */
    method AddRole() returns (status: Status)
      requires Valid()
      modifies this
      ensures Valid()
      ensures status == ValidateRole(old(roles), old(draft))
      ensures status == Ok ==> roles == old(roles) + [NewRole(old(roles), old(draft))] && draft == EmptyRoleDraft
      ensures status != Ok ==> roles == old(roles) && draft == old(draft)
    {
      if draft.name == "" {
        return Err(NameRequired);
      }
      if draft.description == "" {
        return Err(DescriptionRequired);
      }
      if |draft.permissions| == 0 {
        return Err(PermissionRequired);
      }
      if NameTaken(roles, draft.name) {
        return Err(DuplicateName);
      }
      AddKeepsWellFormed(roles, draft);
      roles := roles + [NewRole(roles, draft)];
      draft := EmptyRoleDraft;
      return Ok;
    }

    /** `handleDeleteRole`: drops every record with the id. */
    method DeleteRole(id: string)
      requires Valid()
      modifies this
      ensures Valid() && draft == old(draft)
      ensures roles == WithoutRole(old(roles), id)
    {
      DeleteKeepsWellFormed(roles, id);
      roles := WithoutRole(roles, id);
    }
  }
}
