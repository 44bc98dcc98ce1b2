/** Privileges, the read check, and what the metadata views show. */
module Authorization {
  /// Principals and privileges

  datatype Holder = UserHolder(id: int) | RoleHolder(id: int)

  datatype Target = SystemObject | SchemaObject(oid: int) | RelationObject(oid: int)

  /** A row of rs_privilege. */
  datatype Privilege = Privilege(holder: Holder, target: Target, action: string)

  datatype User = User(name: string, active: bool)

  datatype Membership = Membership(user: int, role: int)

  /** rs_user, rs_role, rs_user_role and rs_privilege */
  datatype Accounts = Accounts(users: map<int, User>, roles: map<int, string>, members: set<Membership>, privileges: set<Privilege>)

  /** `SessionPrincipal`: roles are carried by name. */
  datatype Principal = Principal(userId: int, roles: set<string>)

  ghost predicate Named(a: Accounts, user: int, name: string) { user in a.users && a.users[user].name == name }

  ghost predicate UniqueUserNames(a: Accounts) {
    forall u, v :: u in a.users && v in a.users && a.users[u].name == a.users[v].name ==> u == v
  }

  ghost predicate UniqueRoleNames(a: Accounts) {
    forall r, q :: r in a.roles && q in a.roles && a.roles[r] == a.roles[q] ==> r == q
  }

  /** Every membership is in a role that exists. */
  ghost predicate MembersHaveRoles(a: Accounts) { forall m <- a.members :: m.role in a.roles }

  /// Authorization: `principal_for_username` and `require_relation_action`

  function RoleNames(a: Accounts, user: int): set<string> {
    set m | m in a.members && m.user == user && m.role in a.roles :: a.roles[m.role]
  }

  ghost predicate PrincipalFor(a: Accounts, name: string, p: Principal) {
    Named(a, p.userId, name) && a.users[p.userId].active && p.roles == RoleNames(a, p.userId)
  }

  predicate IsAdmin(p: Principal) { "admin" in p.roles }

  /** The privilege belongs to the user, or to a role with the name of one of the user's roles. */
  predicate HeldBy(a: Accounts, p: Principal, h: Holder) {
    match h
    case UserHolder(id) => id == p.userId
    case RoleHolder(id) => id in a.roles && a.roles[id] in p.roles
  }

  /** `has_explicit_privilege` */
  predicate HasPrivilege(a: Accounts, p: Principal, target: Target, action: string) {
    exists g <- a.privileges :: g.target == target && g.action == action && HeldBy(a, p, g.holder)
  }

  /** A read privilege on the relation or on its schema. */
  predicate AllowsReading(g: Privilege, relation: int, namespace: int) {
    g.action == "read" && (g.target == RelationObject(relation) || g.target == SchemaObject(namespace))
  }

  /** `require_relation_action` */
  predicate MayActOn(a: Accounts, p: Principal, relation: int, namespace: int, action: string) {
    || IsAdmin(p)
    || HasPrivilege(a, p, RelationObject(relation), action)
    || (action == "read" && HasPrivilege(a, p, SchemaObject(namespace), "read"))
  }

  /// Visibility: `visible_relation_predicate`

  /** The privilege belongs to a user of that name, or to a role such a user is a member of by id. */
  ghost predicate HeldByName(a: Accounts, name: string, h: Holder) {
    match h
    case UserHolder(id) => Named(a, id, name)
    case RoleHolder(id) => exists m <- a.members :: m.role == id && Named(a, m.user, name)
  }

  ghost predicate AdminByName(a: Accounts, name: string) {
    exists m <- a.members :: Named(a, m.user, name) && m.role in a.roles && a.roles[m.role] == "admin"
  }

  ghost predicate Visible(a: Accounts, name: string, relation: int, namespace: int) {
    || AdminByName(a, name)
    || exists g <- a.privileges :: AllowsReading(g, relation, namespace) && HeldByName(a, name, g.holder)
  }

  /// The two agree

  lemma SameUser(a: Accounts, name: string, p: Principal, user: int)
    requires UniqueUserNames(a) && PrincipalFor(a, name, p) && Named(a, user, name)
    ensures user == p.userId
  {}

  /** Held by role name is held by role id when role names are unique; the converse needs the role to exist. */
  lemma HoldersAgree(a: Accounts, name: string, p: Principal, h: Holder)
    requires UniqueUserNames(a) && UniqueRoleNames(a) && PrincipalFor(a, name, p)
    ensures HeldBy(a, p, h) ==> HeldByName(a, name, h)
    ensures HeldByName(a, name, h) && (h.RoleHolder? ==> h.id in a.roles) ==> HeldBy(a, p, h)
  {
    if HeldBy(a, p, h) && h.RoleHolder? {
      var m :| m in a.members && m.user == p.userId && m.role in a.roles && a.roles[m.role] == a.roles[h.id];
      assert m.role == h.id;
    }
  }

  lemma AdminsAgree(a: Accounts, name: string, p: Principal)
    requires UniqueUserNames(a) && PrincipalFor(a, name, p)
    ensures IsAdmin(p) <==> AdminByName(a, name)
  {
    if IsAdmin(p) {
      var m :| m in a.members && m.user == p.userId && m.role in a.roles && a.roles[m.role] == "admin";
      assert Named(a, m.user, name);
    }
    if AdminByName(a, name) {
      var m :| m in a.members && Named(a, m.user, name) && m.role in a.roles && a.roles[m.role] == "admin";
      SameUser(a, name, p, m.user);
      assert a.roles[m.role] in RoleNames(a, p.userId);
    }
  }

  /** The action on the relation is granted to the user, or to a role the user is a member of; reading may be granted
      on the schema instead. */
  ghost predicate Granted(a: Accounts, name: string, relation: int, namespace: int, action: string) {
    exists g <- a.privileges ::
      && (g == Privilege(g.holder, RelationObject(relation), action) || (action == "read" && g == Privilege(g.holder, SchemaObject(namespace), "read")))
      && match g.holder
         case UserHolder(id) => Named(a, id, name)
         case RoleHolder(id) => id in a.roles && exists m <- a.members :: m.role == id && Named(a, m.user, name)
  }

  /** For every action: an active user may act exactly as an admin or with a privilege for that very action, on the
      relation or, for reading only, on its schema. */
  lemma MayActIff(a: Accounts, name: string, p: Principal, relation: int, namespace: int, action: string)
    requires UniqueUserNames(a) && UniqueRoleNames(a) && PrincipalFor(a, name, p)
    ensures MayActOn(a, p, relation, namespace, action) <==> AdminByName(a, name) || Granted(a, name, relation, namespace, action)
  {
    AdminsAgree(a, name, p);
    if MayActOn(a, p, relation, namespace, action) && !IsAdmin(p) {
      var g :| g in a.privileges && HeldBy(a, p, g.holder)
            && ((g.target == RelationObject(relation) && g.action == action) || (action == "read" && g.target == SchemaObject(namespace) && g.action == "read"));
      HoldersAgree(a, name, p, g.holder);
      assert HeldByName(a, name, g.holder);
    }
    if Granted(a, name, relation, namespace, action) {
      var g :| g in a.privileges
            && (g == Privilege(g.holder, RelationObject(relation), action) || (action == "read" && g == Privilege(g.holder, SchemaObject(namespace), "read")))
            && HeldByName(a, name, g.holder) && (g.holder.RoleHolder? ==> g.holder.id in a.roles);
      HoldersAgree(a, name, p, g.holder);
      assert HeldBy(a, p, g.holder);
    }
  }

  /** What can be read is visible. */
  lemma ReadableIsVisible(a: Accounts, name: string, p: Principal, relation: int, namespace: int)
    requires UniqueUserNames(a) && UniqueRoleNames(a) && PrincipalFor(a, name, p) && MayActOn(a, p, relation, namespace, "read")
    ensures Visible(a, name, relation, namespace)
  {
    AdminsAgree(a, name, p);
    if !IsAdmin(p) {
      var g :| g in a.privileges && AllowsReading(g, relation, namespace) && HeldBy(a, p, g.holder);
      HoldersAgree(a, name, p, g.holder);
    }
  }

  /** For an active user, a relation is shown exactly when it may be read. */
  lemma VisibleIffReadable(a: Accounts, name: string, p: Principal, relation: int, namespace: int)
    requires UniqueUserNames(a) && UniqueRoleNames(a) && MembersHaveRoles(a) && PrincipalFor(a, name, p)
    ensures Visible(a, name, relation, namespace) <==> MayActOn(a, p, relation, namespace, "read")
  {
    if MayActOn(a, p, relation, namespace, "read") {
      ReadableIsVisible(a, name, p, relation, namespace);
    }
    AdminsAgree(a, name, p);
    if Visible(a, name, relation, namespace) && !IsAdmin(p) {
      var g :| g in a.privileges && AllowsReading(g, relation, namespace) && HeldByName(a, name, g.holder);
      HoldersAgree(a, name, p, g.holder);
    }
  }

  /** Without that, the views show more than may be read exactly for relations on which no privilege is
      held, but one belongs to a role of the user that no longer exists. */
  lemma ShownButUnreadableIff(a: Accounts, name: string, p: Principal, relation: int, namespace: int)
    requires UniqueUserNames(a) && UniqueRoleNames(a) && PrincipalFor(a, name, p)
    ensures Visible(a, name, relation, namespace) && !MayActOn(a, p, relation, namespace, "read") <==>
            && !MayActOn(a, p, relation, namespace, "read")
            && exists g <- a.privileges ::
                 AllowsReading(g, relation, namespace) && g.holder.RoleHolder? && g.holder.id !in a.roles
                 && Membership(p.userId, g.holder.id) in a.members
  {
    AdminsAgree(a, name, p);
    if Visible(a, name, relation, namespace) && !MayActOn(a, p, relation, namespace, "read") {
      var g :| g in a.privileges && AllowsReading(g, relation, namespace) && HeldByName(a, name, g.holder);
      HoldersAgree(a, name, p, g.holder);
      var m :| m in a.members && m.role == g.holder.id && Named(a, m.user, name);
      assert m == Membership(p.userId, g.holder.id);
    }
    if g :| g in a.privileges && AllowsReading(g, relation, namespace) && g.holder.RoleHolder? && g.holder.id !in a.roles
            && Membership(p.userId, g.holder.id) in a.members {
      assert HeldByName(a, name, g.holder);
    }
  }
}
