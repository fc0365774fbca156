/** Role-based access control of `core/permissions.py`: a user's
    permissions are the role's set plus the valid custom ones, minus the
    valid denied ones. Users are objects, as in the source, so the current
    user and the registry entry of the same name are one object. */
module Permissions {
  import opened Wrappers
  import opened QueryText
  import KnowledgeIndex

  datatype Permission =
    | ChatView | ChatCreate | ChatDelete
    | KnowledgeView | KnowledgeCreate | KnowledgeEdit | KnowledgeDelete | KnowledgeRebuildIndex
    | ProductView | ProductCreate | ProductEdit | ProductDelete
    | UserView | UserCreate | UserEdit | UserDelete
    | SettingsView | SettingsEdit | BackupCreate | BackupRestore | StatisticsView

  /** `Permission.value`. */
  function PermissionValue(p: Permission): (s: string)
    ensures PermissionOf(s) == Some(p)
  {
    match p
    case ChatView => "chat.view"
    case ChatCreate => "chat.create"
    case ChatDelete => "chat.delete"
    case KnowledgeView => "knowledge.view"
    case KnowledgeCreate => "knowledge.create"
    case KnowledgeEdit => "knowledge.edit"
    case KnowledgeDelete => "knowledge.delete"
    case KnowledgeRebuildIndex => "knowledge.rebuild_index"
    case ProductView => "product.view"
    case ProductCreate => "product.create"
    case ProductEdit => "product.edit"
    case ProductDelete => "product.delete"
    case UserView => "user.view"
    case UserCreate => "user.create"
    case UserEdit => "user.edit"
    case UserDelete => "user.delete"
    case SettingsView => "settings.view"
    case SettingsEdit => "settings.edit"
    case BackupCreate => "backup.create"
    case BackupRestore => "backup.restore"
    case StatisticsView => "statistics.view"
  }

  /** `Permission(s)`, or None where Python raises ValueError. */
  function PermissionOf(s: string): Option<Permission> {
    if s == "chat.view" then Some(ChatView)
    else if s == "chat.create" then Some(ChatCreate)
    else if s == "chat.delete" then Some(ChatDelete)
    else if s == "knowledge.view" then Some(KnowledgeView)
    else if s == "knowledge.create" then Some(KnowledgeCreate)
    else if s == "knowledge.edit" then Some(KnowledgeEdit)
    else if s == "knowledge.delete" then Some(KnowledgeDelete)
    else if s == "knowledge.rebuild_index" then Some(KnowledgeRebuildIndex)
    else if s == "product.view" then Some(ProductView)
    else if s == "product.create" then Some(ProductCreate)
    else if s == "product.edit" then Some(ProductEdit)
    else if s == "product.delete" then Some(ProductDelete)
    else if s == "user.view" then Some(UserView)
    else if s == "user.create" then Some(UserCreate)
    else if s == "user.edit" then Some(UserEdit)
    else if s == "user.delete" then Some(UserDelete)
    else if s == "settings.view" then Some(SettingsView)
    else if s == "settings.edit" then Some(SettingsEdit)
    else if s == "backup.create" then Some(BackupCreate)
    else if s == "backup.restore" then Some(BackupRestore)
    else if s == "statistics.view" then Some(StatisticsView)
    else None
  }

  datatype Role = Admin | CustomerService

  /** `Role(s)`, or None for a string that names no role. */
  function RoleOf(s: string): (r: Option<Role>)
    ensures r == Some(Admin) <==> s == "admin"
    ensures r == Some(CustomerService) <==> s == "cs"
  {
    if s == "admin" then Some(Admin) else if s == "cs" then Some(CustomerService) else None
  }

  /** `ROLE_PERMISSIONS`: everything for the administrator, conversations,
      products and viewing settings for customer service. */
  function RolePermissions(r: Role): (ps: set<Permission>)
    ensures r == CustomerService ==> |ps| == 7 && UserView !in ps && KnowledgeEdit !in ps
  {
    match r
    case Admin =>
      { ChatView, ChatCreate, ChatDelete,
        KnowledgeView, KnowledgeCreate, KnowledgeEdit, KnowledgeDelete, KnowledgeRebuildIndex,
        ProductView, ProductCreate, ProductEdit, ProductDelete,
        UserView, UserCreate, UserEdit, UserDelete,
        SettingsView, SettingsEdit, BackupCreate, BackupRestore, StatisticsView }
    case CustomerService =>
      { ChatView, ChatCreate, ProductView, ProductCreate, ProductEdit, ProductDelete, SettingsView }
  }

  /** The administrator holds every permission. */
  lemma AdminHoldsAll(p: Permission)
    ensures p in RolePermissions(Admin)
  {
    match p
    case ChatView =>
    case ChatCreate =>
    case ChatDelete =>
    case KnowledgeView =>
    case KnowledgeCreate =>
    case KnowledgeEdit =>
    case KnowledgeDelete =>
    case KnowledgeRebuildIndex =>
    case ProductView =>
    case ProductCreate =>
    case ProductEdit =>
    case ProductDelete =>
    case UserView =>
    case UserCreate =>
    case UserEdit =>
    case UserDelete =>
    case SettingsView =>
    case SettingsEdit =>
    case BackupCreate =>
    case BackupRestore =>
    case StatisticsView =>
  }

  /** The role's set, or nothing for a role string that names no role. */
  function RoleBase(role: string): set<Permission> {
    match RoleOf(role)
    case Some(r) => RolePermissions(r)
    case None => {}
  }

  /** The permissions a list of strings names; unknown strings are skipped. */
  function Named(strs: seq<string>): set<Permission> {
    set s, p | s in strs && PermissionOf(s) == Some(p) :: p
  }

  /** The loop over `custom_permissions`: each valid one is added. */
  function AddAll(ps: set<Permission>, strs: seq<string>): set<Permission>
    decreases |strs|
  {
    if strs == [] then ps
    else
      var next := match PermissionOf(strs[0]) case Some(p) => ps + {p} case None => ps;
      AddAll(next, strs[1..])
  }

  /** The loop over `denied_permissions`: each valid one is discarded. */
  function DiscardAll(ps: set<Permission>, strs: seq<string>): set<Permission>
    decreases |strs|
  {
    if strs == [] then ps
    else
      var next := match PermissionOf(strs[0]) case Some(p) => ps - {p} case None => ps;
      DiscardAll(next, strs[1..])
  }

  /** The set `get_user_permissions` builds for one user. */
  function Granted(role: string, custom: seq<string>, denied: seq<string>): set<Permission> {
    DiscardAll(AddAll(RoleBase(role), custom), denied)
  }

  lemma {:induction false} AddAllUnion(ps: set<Permission>, strs: seq<string>)
    ensures AddAll(ps, strs) == ps + Named(strs)
    decreases |strs|
  {
    if strs != [] {
      AddAllUnion(match PermissionOf(strs[0]) case Some(p) => ps + {p} case None => ps, strs[1..]);
      NamedCons(strs);
    }
  }

  lemma {:induction false} DiscardAllMinus(ps: set<Permission>, strs: seq<string>)
    ensures DiscardAll(ps, strs) == ps - Named(strs)
    decreases |strs|
  {
    if strs != [] {
      DiscardAllMinus(match PermissionOf(strs[0]) case Some(p) => ps - {p} case None => ps, strs[1..]);
      NamedCons(strs);
    }
  }

  lemma NamedCons(strs: seq<string>)
    requires strs != []
    ensures Named(strs) == (match PermissionOf(strs[0]) case Some(p) => {p} case None => {}) + Named(strs[1..])
  {
    var head: set<Permission> := match PermissionOf(strs[0]) case Some(p) => {p} case None => {};
    var rest := strs[1..];
    forall p | p in Named(strs) ensures p in head + Named(rest) {
      var s :| s in strs && PermissionOf(s) == Some(p);
      if s != strs[0] {
        var i :| 0 <= i < |strs| && strs[i] == s;
        assert rest[i - 1] == s;
      }
    }
    forall p | p in head + Named(rest) ensures p in Named(strs) {
      if p in head {
        assert strs[0] in strs && PermissionOf(strs[0]) == Some(p);
      } else {
        var s :| s in rest && PermissionOf(s) == Some(p);
        assert s in strs;
      }
    }
  }

  /** The two loops compute (role ∪ custom) − denied, so a denied
      permission wins over a custom one and an unknown role contributes
      nothing. */
  lemma GrantedAlgebra(role: string, custom: seq<string>, denied: seq<string>)
    ensures Granted(role, custom, denied) == (RoleBase(role) + Named(custom)) - Named(denied)
    ensures forall p :: p in Named(denied) ==> p !in Granted(role, custom, denied)
    ensures RoleOf(role).None? ==> Granted(role, custom, denied) == Named(custom) - Named(denied)
  {
    AddAllUnion(RoleBase(role), custom);
    DiscardAllMinus(AddAll(RoleBase(role), custom), denied);
  }

  /** `get_visible_pages` for a user with this role string. */
  function Pages(role: string): (pages: seq<string>)
    ensures role == "admin" ==> |pages| == 8
    ensures role != "admin" ==> pages == ["human_service", "product"]
  {
    if role == "admin" then
      ["workbench", "human_service", "knowledge", "product", "statistics", "performance", "log", "user"]
    else ["human_service", "product"]
  }

  /** The fields of a user record. */
  datatype Record = Record(username: string, passwordHash: string, role: string, displayName: string,
                           email: string, createdAt: string, lastLogin: string, isActive: bool,
                           custom: seq<string>, denied: seq<string>)

  /** The keyword arguments `update_user` was given; a field left None was
      not passed. */
  datatype Changes = Changes(username: Option<string>, passwordHash: Option<string>, role: Option<string>,
                             displayName: Option<string>, email: Option<string>, createdAt: Option<string>,
                             lastLogin: Option<string>, isActive: Option<bool>,
                             custom: Option<seq<string>>, denied: Option<seq<string>>)

  /** A field after `setattr`: the passed value if there was one, else
      the value it had. */
  predicate Takes<T(==)>(passed: Option<T>, before: T, after: T) {
    (passed.Some? ==> after == passed.value) && (passed.None? ==> after == before)
  }

  /** No field passed. */
  const NoChanges := Changes(None, None, None, None, None, None, None, None, None, None)

  /** `setattr` for every passed field; the rest keep their value. */
  function Changed(r: Record, c: Changes): (n: Record)
    ensures Takes(c.username, r.username, n.username) && Takes(c.passwordHash, r.passwordHash, n.passwordHash)
    ensures Takes(c.role, r.role, n.role) && Takes(c.displayName, r.displayName, n.displayName)
    ensures Takes(c.email, r.email, n.email) && Takes(c.createdAt, r.createdAt, n.createdAt)
    ensures Takes(c.lastLogin, r.lastLogin, n.lastLogin) && Takes(c.isActive, r.isActive, n.isActive)
    ensures Takes(c.custom, r.custom, n.custom) && Takes(c.denied, r.denied, n.denied)
  {
    Record(c.username.GetOr(r.username), c.passwordHash.GetOr(r.passwordHash), c.role.GetOr(r.role),
           c.displayName.GetOr(r.displayName), c.email.GetOr(r.email), c.createdAt.GetOr(r.createdAt),
           c.lastLogin.GetOr(r.lastLogin), c.isActive.GetOr(r.isActive), c.custom.GetOr(r.custom),
           c.denied.GetOr(r.denied))
  }

  /** Passing nothing changes nothing. */
  lemma ChangedNothing(r: Record)
    ensures Changed(r, NoChanges) == r
  {
  }

  /** Passing the same fields twice is the same as passing them once. */
  lemma ChangedTwice(r: Record, c: Changes)
    ensures Changed(Changed(r, c), c) == Changed(r, c)
  {
  }

  /** `User`. */
  class User {
    var username: string
    var passwordHash: string
    var role: string
    var displayName: string
    var email: string
    var createdAt: string
    var lastLogin: string
    var isActive: bool
    var custom: seq<string>
    var denied: seq<string>

    function Fields(): Record
      reads this
    {
      Record(username, passwordHash, role, displayName, email, createdAt, lastLogin, isActive, custom, denied)
    }

    constructor (r: Record)
      ensures Fields() == r
    {
      username, passwordHash, role, displayName := r.username, r.passwordHash, r.role, r.displayName;
      email, createdAt, lastLogin, isActive := r.email, r.createdAt, r.lastLogin, r.isActive;
      custom, denied := r.custom, r.denied;
    }

    method Set(r: Record)
      modifies this
      ensures Fields() == r
    {
      username, passwordHash, role, displayName := r.username, r.passwordHash, r.role, r.displayName;
      email, createdAt, lastLogin, isActive := r.email, r.createdAt, r.lastLogin, r.isActive;
      custom, denied := r.custom, r.denied;
    }
  }

  /** `PermissionManager`: the registry by username and the current user.
      Reading and writing `users.json` is not part of this model. */
  class PermissionManager {
    var users: map<string, User>
    var current: User?

    constructor ()
      ensures users == map[] && current == null
    {
      users := map[];
      current := null;
    }

    /** `self._users.get(username) if username else self._current_user`. */
    function Lookup(name: Option<string>): User?
      reads this
    {
      if name.Some? && name.value != "" then (if name.value in users then users[name.value] else null)
      else current
    }

    /** `get_user_permissions`. */
    function UserPermissions(name: Option<string>): (ps: set<Permission>)
      reads this, Lookup(name)
      ensures Lookup(name) == null ==> ps == {}
      ensures Lookup(name) != null ==>
                ps == (RoleBase(Lookup(name).role) + Named(Lookup(name).custom)) - Named(Lookup(name).denied)
    {
      var u := Lookup(name);
      if u == null then {}
      else
        GrantedAlgebra(u.role, u.custom, u.denied);
        Granted(u.role, u.custom, u.denied)
    }

    /** `has_permission`. */
    function HasPermission(p: Permission, name: Option<string>): (b: bool)
      reads this, Lookup(name)
      ensures b ==> Lookup(name) != null
      ensures Lookup(name) != null ==>
                (b <==> (p in RoleBase(Lookup(name).role) || p in Named(Lookup(name).custom)) && p !in Named(Lookup(name).denied))
    {
      p in UserPermissions(name)
    }

    /** `is_admin`. */
    function IsAdmin(name: Option<string>): (b: bool)
      reads this, Lookup(name)
      ensures b <==> Lookup(name) != null && Lookup(name).role == "admin"
    {
      var u := Lookup(name);
      u != null && u.role == "admin"
    }

    /** `get_visible_pages`. */
    function VisiblePages(name: Option<string>): (pages: seq<string>)
      reads this, Lookup(name)
      ensures Lookup(name) == null ==> pages == []
      ensures Lookup(name) != null ==> pages == Pages(Lookup(name).role)
    {
      var u := Lookup(name);
      if u == null then [] else Pages(u.role)
    }

    /** `set_current_user`. */
    method SetCurrentUser(name: string) returns (ok: bool)
      modifies this`current
      ensures ok <==> name in users
      ensures current == if ok then users[name] else old(current)
    {
      if name in users {
        current := users[name];
        return true;
      }
      return false;
    }

    /** `clear_current_user`. */
    method ClearCurrentUser()
      modifies this`current
      ensures current == null
    {
      current := null;
    }

    /** `create_user`; `now` is the creation time. */
    method CreateUser(name: string, passwordHash: string, role: string, displayName: string, email: string, now: string)
      returns (ok: bool)
      modifies this`users
      ensures ok <==> name !in old(users)
      ensures !ok ==> users == old(users)
      ensures ok ==> name in users && fresh(users[name]) && users == old(users)[name := users[name]]
                     && users[name].Fields()
                        == Record(name, passwordHash, role, if displayName != "" then displayName else name,
                                  email, now, "", true, [], [])
    {
      if name in users {
        return false;
      }
      var u := new User(Record(name, passwordHash, role, if displayName != "" then displayName else name,
                               email, now, "", true, [], []));
      users := users[name := u];
      return true;
    }

    /** `update_user(username, **kwargs)`. */
    method UpdateUser(name: string, c: Changes) returns (ok: bool)
      modifies if name in users then {users[name]} else {}
      ensures ok <==> name in users
      ensures ok ==> users[name].Fields() == Changed(old(users[name].Fields()), c)
    {
      if name !in users {
        return false;
      }
      var u := users[name];
      u.Set(Changed(u.Fields(), c));
      return true;
    }

    /** `set_user_role`. */
    method SetUserRole(name: string, role: string) returns (ok: bool)
      modifies if name in users then {users[name]} else {}
      ensures ok <==> name in users
      ensures ok ==> users[name].Fields() == old(users[name].Fields()).(role := role)
    {
      ok := UpdateUser(name, Changes(None, None, Some(role), None, None, None, None, None, None, None));
    }

    /** `delete_user`: only the registry entry goes; a current user of that
        name stays current. */
    method DeleteUser(name: string) returns (ok: bool)
      modifies this`users
      ensures ok <==> name in old(users)
      ensures users == old(users) - {name}
    {
      if name !in users {
        return false;
      }
      users := users - {name};
      return true;
    }

    /** `add_custom_permission`. */
    method AddCustomPermission(name: string, p: Permission) returns (ok: bool)
      modifies if name in users then {users[name]} else {}
      ensures ok <==> name in users
      ensures ok ==> users[name].Fields() == old(users[name].Fields()).(custom := KnowledgeIndex.AppendOnce(old(users[name].custom), PermissionValue(p)))
    {
      if name !in users {
        return false;
      }
      var u := users[name];
      if PermissionValue(p) !in u.custom {
        u.custom := u.custom + [PermissionValue(p)];
      }
      return true;
    }

    /** `remove_custom_permission`. */
    method RemoveCustomPermission(name: string, p: Permission) returns (ok: bool)
      modifies if name in users then {users[name]} else {}
      ensures ok <==> name in users
      ensures ok ==> users[name].Fields() == old(users[name].Fields()).(custom := Discarded(old(users[name].custom), PermissionValue(p)))
    {
      if name !in users {
        return false;
      }
      var u := users[name];
      if PermissionValue(p) in u.custom {
        u.custom := KnowledgeIndex.RemoveFirst(u.custom, PermissionValue(p));
      }
      return true;
    }

    /** `deny_permission`. */
    method DenyPermission(name: string, p: Permission) returns (ok: bool)
      modifies if name in users then {users[name]} else {}
      ensures ok <==> name in users
      ensures ok ==> users[name].Fields() == old(users[name].Fields()).(denied := KnowledgeIndex.AppendOnce(old(users[name].denied), PermissionValue(p)))
    {
      if name !in users {
        return false;
      }
      var u := users[name];
      if PermissionValue(p) !in u.denied {
        u.denied := u.denied + [PermissionValue(p)];
      }
      return true;
    }

    /** `allow_permission`. */
    method AllowPermission(name: string, p: Permission) returns (ok: bool)
      modifies if name in users then {users[name]} else {}
      ensures ok <==> name in users
      ensures ok ==> users[name].Fields() == old(users[name].Fields()).(denied := Discarded(old(users[name].denied), PermissionValue(p)))
    {
      if name !in users {
        return false;
      }
      var u := users[name];
      if PermissionValue(p) in u.denied {
        u.denied := KnowledgeIndex.RemoveFirst(u.denied, PermissionValue(p));
      }
      return true;
    }
  }

  /** `list.remove(x)` guarded by `x in list`. */
  function Discarded(l: seq<string>, x: string): (r: seq<string>)
    ensures x !in l ==> r == l
    ensures NoDup(l) ==> NoDup(r) && x !in r && forall y :: y in r <==> y in l && y != x
  {
    if x in l then KnowledgeIndex.RemoveFirst(l, x) else l
  }

  /** Adding a permission twice is adding it once, and never makes an
      entry appear twice. */
  lemma AddIdempotent(l: seq<string>, p: Permission)
    ensures KnowledgeIndex.AppendOnce(KnowledgeIndex.AppendOnce(l, PermissionValue(p)), PermissionValue(p)) == KnowledgeIndex.AppendOnce(l, PermissionValue(p))
    ensures NoDup(l) ==> NoDup(KnowledgeIndex.AppendOnce(l, PermissionValue(p)))
  {
  }

  /** Denying a permission takes it away whatever the role and the custom
      list say; allowing it again on a duplicate-free list restores the
      role and custom grant. */
  lemma DenyThenAllow(role: string, custom: seq<string>, denied: seq<string>, p: Permission)
    requires NoDup(denied)
    ensures p !in Granted(role, custom, KnowledgeIndex.AppendOnce(denied, PermissionValue(p)))
    ensures p !in Named(denied) ==>
              Granted(role, custom, Discarded(KnowledgeIndex.AppendOnce(denied, PermissionValue(p)), PermissionValue(p))) == Granted(role, custom, denied)
  {
    var d1 := KnowledgeIndex.AppendOnce(denied, PermissionValue(p));
    GrantedAlgebra(role, custom, d1);
    assert PermissionValue(p) in d1;
    assert p in Named(d1);
    var d2 := Discarded(d1, PermissionValue(p));
    GrantedAlgebra(role, custom, d2);
    GrantedAlgebra(role, custom, denied);
    if p !in Named(denied) {
      assert PermissionValue(p) !in denied;
      assert forall y :: y in d2 <==> y in denied;
      assert Named(d2) == Named(denied);
    }
  }
}
