/**
 * The user registry page: an ordered list of user records seeded with four
 * rows, a draft the add dialog edits, validated append (fields filled in, e-mail
 * shaped like the page's pattern) and delete-by-id, plus the capability check
 * and the role colours of the table.
 */
module UserManagement {
  import opened Wrappers
  import opened Seqs
  import opened Text
  import opened AuthContext
  import App

  datatype UserRecord = UserRecord(id: string, name: string, email: string, role: Role)

  /** The add dialog's `currentUser`. */
  datatype UserDraft = UserDraft(name: string, email: string, role: Role)

  const EmptyUserDraft := UserDraft("", "", USER)

  const FieldsRequired := "Please fill in all fields"
  const InvalidEmail := "Please enter a valid email address"

  /** The registry the page starts with. */
  function SeedUsers(): seq<UserRecord>
  {
    [ UserRecord("1", "Super Admin", "superadmin@example.com", SUPERADMIN),
      UserRecord("2", "Admin User", "admin@example.com", ADMIN),
      UserRecord("3", "Manager User", "manager@example.com", MANAGER),
      UserRecord("4", "Regular User", "user@example.com", USER) ]
  }

  /** One `[^\s@]+` piece of the e-mail pattern: non-empty, no whitespace, no '@'. */
  predicate IsSegment(s: string)
  {
    |s| > 0 && forall i :: 0 <= i < |s| ==> !IsWhitespace(s[i]) && s[i] != '@'
  }

  /** The anchored pattern `^[^\s@]+@[^\s@]+\.[^\s@]+$`, read as the decompositions it accepts. */
  ghost predicate MatchesEmailPattern(s: string)
  {
    exists a, b, c :: IsSegment(a) && IsSegment(b) && IsSegment(c) && s == a + "@" + b + "." + c
  }

  /**
   * The e-mail check the page applies: no whitespace, exactly one '@', something
   * before it, and after it a '.' that is neither the domain's first nor its last character.
   */
  predicate IsValidEmail(s: string)
  {
    && (forall i :: 0 <= i < |s| ==> !IsWhitespace(s[i]))
    && exists k :: 0 < k < |s| && s[k] == '@' && (forall i :: 0 <= i < |s| && s[i] == '@' ==> i == k)
         && exists d :: k + 1 < d < |s| - 1 && s[d] == '.'
  }

  /** The check accepts exactly the strings the regular expression matches. */
  lemma EmailCheckMatchesPattern(s: string)
    ensures IsValidEmail(s) <==> MatchesEmailPattern(s)
  {
    if IsValidEmail(s) {
      var k :| 0 < k < |s| && s[k] == '@' && (forall i :: 0 <= i < |s| && s[i] == '@' ==> i == k)
               && exists d :: k + 1 < d < |s| - 1 && s[d] == '.';
      var d :| k + 1 < d < |s| - 1 && s[d] == '.';
      var a, b, c := s[..k], s[k + 1..d], s[d + 1..];
      assert s == a + "@" + b + "." + c;
      assert IsSegment(a) by {
        forall i | 0 <= i < |a| ensures !IsWhitespace(a[i]) && a[i] != '@' {
          assert a[i] == s[i];
        }
      }
      assert IsSegment(b) by {
        forall i | 0 <= i < |b| ensures !IsWhitespace(b[i]) && b[i] != '@' {
          assert b[i] == s[k + 1 + i];
        }
      }
      assert IsSegment(c) by {
        forall i | 0 <= i < |c| ensures !IsWhitespace(c[i]) && c[i] != '@' {
          assert c[i] == s[d + 1 + i];
        }
      }
    }
    if MatchesEmailPattern(s) {
      var a, b, c :| IsSegment(a) && IsSegment(b) && IsSegment(c) && s == a + "@" + b + "." + c;
      var k, d := |a|, |a| + 1 + |b|;
      assert s[k] == '@' && s[d] == '.';
      forall i | 0 <= i < |s| ensures !IsWhitespace(s[i]) && (s[i] == '@' ==> i == k) {
        if i < k {
          assert s[i] == a[i];
        } else if k < i < d {
          assert s[i] == b[i - k - 1];
        } else if d < i {
          assert s[i] == c[i - d - 1];
        }
      }
      assert IsValidEmail(s);
    }
  }

  /**
   * The checks of `handleAddUser`, in the source's order: both fields filled in,
   * then the e-mail shape. The registry plays no part, so an e-mail already on
   * the list is accepted again.
   */
  function ValidateUser(draft: UserDraft): (s: Status)
    ensures s == Ok <==> draft.name != "" && draft.email != "" && MatchesEmailPattern(draft.email)
    ensures draft.name == "" || draft.email == "" ==> s == Err(FieldsRequired)
    ensures draft.name != "" && draft.email != "" && !MatchesEmailPattern(draft.email) ==> s == Err(InvalidEmail)
  {
    EmailCheckMatchesPattern(draft.email);
    if draft.name == "" || draft.email == "" then Err(FieldsRequired)
    else if !IsValidEmail(draft.email) then Err(InvalidEmail)
    else Ok
  }

  /** The record an accepted draft becomes: the draft's fields with id `String(users.length + 1)`. */
  function NewUser(users: seq<UserRecord>, draft: UserDraft): UserRecord
  {
    UserRecord(NatToString(|users| + 1), draft.name, draft.email, draft.role)
  }

  /** `users.filter(u => u.id !== id)`. */
  function WithoutUser(users: seq<UserRecord>, id: string): seq<UserRecord>
  {
    Filter(users, (u: UserRecord) => u.id != id)
  }

  /** What the registry keeps true: every record has a name and a well-shaped e-mail. */
  predicate WellFormed(users: seq<UserRecord>)
  {
    forall i :: 0 <= i < |users| ==> users[i].name != "" && IsValidEmail(users[i].email)
  }

  /** `local@domain.tld`: the seeded addresses pass the page's own check. */
  lemma ExampleAddressValid(local: string)
    requires |local| > 0 && forall i :: 0 <= i < |local| ==> 'a' <= local[i] <= 'z'
    ensures IsValidEmail(local + "@example.com")
  {
    var s := local + "@example.com";
    var k := |local|;
    assert s[k] == '@' && s[k + 8] == '.';
    forall i | 0 <= i < |s| ensures !IsWhitespace(s[i]) && (s[i] == '@' ==> i == k) {
      if i < k { assert s[i] == local[i]; }
    }
  }

  /** The seeded registry is well formed. */
  lemma SeedWellFormed()
    ensures WellFormed(SeedUsers())
  {
    ExampleAddressValid("superadmin");
    ExampleAddressValid("admin");
    ExampleAddressValid("manager");
    ExampleAddressValid("user");
    assert "superadmin" + "@example.com" == "superadmin@example.com";
    assert "admin" + "@example.com" == "admin@example.com";
    assert "manager" + "@example.com" == "manager@example.com";
    assert "user" + "@example.com" == "user@example.com";
  }

  /**
   * Delete removes exactly the records with the given id, keeps the others in
   * their order (it splits over concatenation), and is a no-op for an absent id.
   */
  lemma DeleteUserProperties(users: seq<UserRecord>, more: seq<UserRecord>, id: string)
    ensures forall u :: u in WithoutUser(users, id) <==> u in users && u.id != id
    ensures WithoutUser(users + more, id) == WithoutUser(users, id) + WithoutUser(more, id)
    ensures (forall i :: 0 <= i < |users| ==> users[i].id != id) ==> WithoutUser(users, id) == users
  {
    var keep := (u: UserRecord) => u.id != id;
    FilterAppend(users, more, keep);
    if forall i :: 0 <= i < |users| ==> users[i].id != id {
      FilterKeepsAll(users, keep);
    }
  }

  /** A delete keeps the registry well formed. */
  lemma DeleteKeepsWellFormed(users: seq<UserRecord>, id: string)
    requires WellFormed(users)
    ensures WellFormed(WithoutUser(users, id))
  {
    var t := WithoutUser(users, id);
    forall i | 0 <= i < |t| ensures t[i].name != "" && IsValidEmail(t[i].email) {
      assert t[i] in users;
    }
  }

  /** Adding a user whose e-mail is already registered succeeds: there is no duplicate check. */
  lemma DuplicateEmailAccepted(users: seq<UserRecord>, draft: UserDraft, i: nat)
    requires i < |users| && WellFormed(users)
    requires draft.name != "" && draft.email == users[i].email
    ensures ValidateUser(draft) == Ok
  {
    EmailCheckMatchesPattern(draft.email);
  }

  /** Deleting id '1' from the seeded registry drops exactly its first row. */
  lemma DeleteFirstSeeded()
    ensures WithoutUser(SeedUsers(), "1") == SeedUsers()[1..]
  {
    var s := SeedUsers();
    var keep := (u: UserRecord) => u.id != "1";
    assert s == [s[0]] + s[1..];
    FilterAppend([s[0]], s[1..], keep);
    assert Filter([s[0]], keep) == [];
    FilterKeepsAll(s[1..], keep);
  }

  /**
   * Ids come from the list's length, so they can collide: in the seeded registry,
   * deleting '1' and then adding a user leaves two records with id '4'.
   */
  lemma IdsCollideAfterDelete(draft: UserDraft)
    ensures var kept := WithoutUser(SeedUsers(), "1");
      var after := kept + [NewUser(kept, draft)];
      && |after| == 4
      && after[2] == UserRecord("4", "Regular User", "user@example.com", USER)
      && after[3] == UserRecord("4", draft.name, draft.email, draft.role)
  {
    DeleteFirstSeeded();
    var kept := SeedUsers()[1..];
    assert |kept| == 3 && kept[2] == UserRecord("4", "Regular User", "user@example.com", USER);
    assert NatToString(4) == "4";
  }

  /** `canModifyUsers`: a signed-in SUPERADMIN or ADMIN may change the registry. */
  function CanModifyUsers(user: Option<Identity>): bool
  {
    match user
    case Some(u) => u.role in [SUPERADMIN, ADMIN]
    case None => false
  }

  /**
   * The capability check agrees with the guard of `/users`; a manager reaches the
   * same page through `/team` but may not change it.
   */
  lemma CanModifyUsersIffUsersPage(user: Option<Identity>)
    ensures CanModifyUsers(user) <==> App.Navigate(user, "/users") == App.Render(App.PageView(App.UserManagementPage))
    ensures user.Some? && user.value.role == MANAGER ==>
      App.Navigate(user, "/team") == App.Render(App.PageView(App.UserManagementPage)) && !CanModifyUsers(user)
  {
    App.NavigateListed(user, 2);
    App.NavigateListed(user, 4);
    assert App.Routes[2].element.requiredRole == App.AnyOf([SUPERADMIN, ADMIN]);
    assert App.Routes[4].element.requiredRole == App.One(MANAGER);
  }

  /** `getRoleColor`: the chip colour for a role string, 'default' for anything outside the catalog. */
  function RoleColor(role: string): (color: string)
    ensures color in {"error", "primary", "secondary", "default"}
    ensures color == "default" <==> ParseRole(role) !in {Some(SUPERADMIN), Some(ADMIN), Some(MANAGER)}
    ensures ParseRole(role) == Some(SUPERADMIN) ==> color == "error"
    ensures ParseRole(role) == Some(ADMIN) ==> color == "primary"
    ensures ParseRole(role) == Some(MANAGER) ==> color == "secondary"
  {
    match ParseRole(role)
    case Some(SUPERADMIN) => "error"
    case Some(ADMIN) => "primary"
    case Some(MANAGER) => "secondary"
    case Some(USER) => "default"
    case None => "default"
  }

  /** The page's state: the list of users and the add dialog's draft. */
  class UserRegistry {
    var users: seq<UserRecord>
    var draft: UserDraft

    ghost predicate Valid()
      reads this
    {
      WellFormed(users)
    }

    /** The page mounts with the seeded users and an empty draft whose role is USER. */
    constructor ()
      ensures Valid() && users == SeedUsers() && draft == EmptyUserDraft
    {
      users := SeedUsers();
      draft := EmptyUserDraft;
      SeedWellFormed();
    }

    /** Typing in the name field. */
    method EditName(name: string)
      requires Valid()
      modifies this
      ensures Valid() && users == old(users) && draft == old(draft).(name := name)
    {
      draft := draft.(name := name);
    }

    /** Typing in the e-mail field. */
    method EditEmail(email: string)
      requires Valid()
      modifies this
      ensures Valid() && users == old(users) && draft == old(draft).(email := email)
    {
      draft := draft.(email := email);
    }

    /** Picking a role in the select. */
    method EditRole(role: Role)
      requires Valid()
      modifies this
      ensures Valid() && users == old(users) && draft == old(draft).(role := role)
    {
      draft := draft.(role := role);
    }

    /**
     * `handleAddUser`: on the first failing check, reports it and changes nothing;
     * otherwise appends the draft as a new last record and resets the draft.
     */
    method AddUser() returns (status: Status)
      requires Valid()
      modifies this
      ensures Valid()
      ensures status == ValidateUser(old(draft))
      ensures status == Ok ==> users == old(users) + [NewUser(old(users), old(draft))] && draft == EmptyUserDraft
      ensures status != Ok ==> users == old(users) && draft == old(draft)
    {
      if draft.name == "" || draft.email == "" {
        return Err(FieldsRequired);
      }
      if !IsValidEmail(draft.email) {
        return Err(InvalidEmail);
      }
      users := users + [NewUser(users, draft)];
      draft := EmptyUserDraft;
      return Ok;
    }

    /** `handleDeleteUser`: drops every record with the id. */
    method DeleteUser(id: string)
      requires Valid()
      modifies this
      ensures Valid() && draft == old(draft)
      ensures users == WithoutUser(old(users), id)
    {
      DeleteKeepsWellFormed(users, id);
      users := WithoutUser(users, id);
    }
  }
}
