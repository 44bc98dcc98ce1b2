/** Accounts, relations, partitions and privileges over whole runs. */
module AccessRuns {
  import opened Text
  import opened Oids
  import opened Authorization

  /// State and steps

  /** A relation of a user schema, or a partition in the reserved schema rsduck_internal. */
  datatype Kind = UserRelation | Partition

  /** What a row of rs_partition ties together; it outlives the relation of an expired partition. */
  datatype Attachment = Attachment(parent: int, child: int)

  datatype State = State(nextOid: int, relations: map<int, Kind>, partitions: set<Attachment>, accounts: Accounts)

  /** Committed mutations, by what they do here. Names are resolved to ids before the mutation; each
      mutation may take ids for other objects too (`more`). */
  datatype Step =
    | CreateRelation(more: nat)
    | DropRelation(oid: int)
    | AddPartition(parent: int, more: nat)
    | ExpirePartition(row: Attachment)
    | RepairPartition(row: Attachment, more: nat)
    | Grant(p: Privilege)
    | Revoke(p: Privilege)
    | CreateUser(username: string, more: nat)
    | DropUser(user: int)
    | CreateRole(rolename: string, more: nat)
    | DropRole(role: int, cascade: bool)
    | GrantRole(m: Membership)
    | RevokeRole(m: Membership)
    | OtherIds(more: nat)
    | RolledBack

  const ADMIN_USER_ID := 10
  const ROLE_ADMIN_ID := 20
  const ROLE_READER_ID := 24

  predicate Builtin(role: int) { ROLE_ADMIN_ID <= role <= ROLE_READER_ID }

  /// Relations

  function WithoutKeys(m: map<int, Kind>, gone: set<int>): (r: map<int, Kind>)
    ensures forall k :: (k in r <==> k in m && k !in gone) && (k in r ==> r[k] == m[k])
  {
    map k | k in m && k !in gone :: m[k]
  }

  /** The partitions of a relation, whatever their status. */
  function ChildrenOf(partitions: set<Attachment>, parent: int): (r: set<int>)
    ensures forall c :: c in r <==> Attachment(parent, c) in partitions
  {
    set row | row in partitions && row.parent == parent :: row.child
  }

  /** `drop_objects`: a partition cannot be dropped directly; a partitioned table takes its partitions and
      their rs_partition rows with it. No privilege row is deleted. */
  function Drop(s: State, oid: int): State {
    if oid !in s.relations || s.relations[oid] == Partition then s
    else s.(relations := WithoutKeys(s.relations, {oid} + ChildrenOf(s.partitions, oid)),
            partitions := set row | row in s.partitions && row.parent != oid :: row)
  }

  /** `create_range_partition` */
  function NewPartition(s: State, parent: int, more: nat): State {
    if parent !in s.relations || s.relations[parent] == Partition then s
    else s.(nextOid := s.nextOid + 1 + more, relations := s.relations[s.nextOid := Partition],
            partitions := s.partitions + {Attachment(parent, s.nextOid)})
  }

  /** `expire_partition`: the relation goes, its rs_partition row stays. */
  function Expire(s: State, row: Attachment): State {
    if row !in s.partitions then s else s.(relations := WithoutKeys(s.relations, {row.child}))
  }

  /** `repair_non_active_partition`: a missing relation is created again under the old id. */
  function Repair(s: State, row: Attachment, more: nat): State {
    if row !in s.partitions || row.parent !in s.relations || row.child in s.relations then s
    else s.(nextOid := s.nextOid + more, relations := s.relations[row.child := Partition])
  }

  /// Accounts

  predicate HolderExists(a: Accounts, h: Holder) {
    match h
    case UserHolder(id) => id in a.users
    case RoleHolder(id) => id in a.roles
  }

  /** `grant_targets` and `grant_principals`: relations of the reserved schemas are refused. */
  predicate MayGrant(s: State, p: Privilege) {
    && HolderExists(s.accounts, p.holder)
    && (p.target.RelationObject? ==> p.target.oid in s.relations && s.relations[p.target.oid] == UserRelation)
  }

  /** User and role names are looked up ignoring case. */
  predicate UserNamed(a: Accounts, name: string) { exists u <- a.users :: EqIgnoreCase(a.users[u].name, name) }

  predicate RoleNamed(a: Accounts, name: string) { exists r <- a.roles :: EqIgnoreCase(a.roles[r], name) }

  function NewUser(s: State, name: string, more: nat): State {
    if UserNamed(s.accounts, name) || ROLE_READER_ID !in s.accounts.roles then s
    else s.(nextOid := s.nextOid + 1 + more,
            accounts := s.accounts.(users := s.accounts.users[s.nextOid := User(name, true)],
                                    members := s.accounts.members + {Membership(s.nextOid, ROLE_READER_ID)}))
  }

  function NewRole(s: State, name: string, more: nat): State {
    if RoleNamed(s.accounts, name) then s
    else s.(nextOid := s.nextOid + 1 + more, accounts := s.accounts.(roles := s.accounts.roles[s.nextOid := name]))
  }

  /** `drop_user_accounts`: memberships and privileges of the user go first; the default admin stays. */
  function RemoveUser(s: State, user: int): State {
    var a := s.accounts;
    if user !in a.users || EqIgnoreCase(a.users[user].name, "admin") then s
    else s.(accounts := a.(users := a.users - {user},
                           members := (set m | m in a.members && m.user != user :: m),
                           privileges := (set p | p in a.privileges && p.holder != UserHolder(user) :: p)))
  }

  predicate RoleInUse(a: Accounts, role: int) {
    (exists m <- a.members :: m.role == role) || (exists p <- a.privileges :: p.holder == RoleHolder(role))
  }

  /** `drop_role_accounts` */
  function RemoveRole(s: State, role: int, cascade: bool): State {
    var a := s.accounts;
    if role !in a.roles || Builtin(role) || (!cascade && RoleInUse(a, role)) then s
    else s.(accounts := a.(roles := a.roles - {role},
                           members := (set m | m in a.members && m.role != role :: m),
                           privileges := (set p | p in a.privileges && p.holder != RoleHolder(role) :: p)))
  }

  /// Runs

  function Apply(s: State, step: Step): State {
    var a := s.accounts;
    match step
    case CreateRelation(more) => s.(nextOid := s.nextOid + 1 + more, relations := s.relations[s.nextOid := UserRelation])
    case DropRelation(oid) => Drop(s, oid)
    case AddPartition(parent, more) => NewPartition(s, parent, more)
    case ExpirePartition(row) => Expire(s, row)
    case RepairPartition(row, more) => Repair(s, row, more)
    case Grant(p) => if MayGrant(s, p) then s.(nextOid := s.nextOid + 1, accounts := a.(privileges := a.privileges + {p})) else s
    case Revoke(p) => s.(accounts := a.(privileges := a.privileges - {p}))
    case CreateUser(username, more) => NewUser(s, username, more)
    case DropUser(user) => RemoveUser(s, user)
    case CreateRole(rolename, more) => NewRole(s, rolename, more)
    case DropRole(role, cascade) => RemoveRole(s, role, cascade)
    case GrantRole(m) => if m.user in a.users && m.role in a.roles then s.(accounts := a.(members := a.members + {m})) else s
    case RevokeRole(m) => s.(accounts := a.(members := a.members - {m}))
    case OtherIds(more) => s.(nextOid := s.nextOid + more)
    case RolledBack => s
  }

  /** All states of a run, the first one included. */
  function Run(s: State, steps: seq<Step>): (h: seq<State>)
    ensures |h| == |steps| + 1 && h[0] == s
    decreases |steps|
  {
    if steps == [] then [s] else [s] + Run(Apply(s, steps[0]), steps[1..])
  }

  lemma {:induction false} RunSteps(s: State, steps: seq<Step>, i: nat)
    requires i < |steps|
    ensures Run(s, steps)[i + 1] == Apply(Run(s, steps)[i], steps[i])
    decreases |steps|
  {
    if i > 0 {
      RunSteps(Apply(s, steps[0]), steps[1..], i - 1);
    }
  }

  /// The invariant

  ghost predicate HasRow(s: State, child: int) { exists row <- s.partitions :: row.child == child }

  /** Ids in use were handed out by the allocator; partitions are exactly the relations some rs_partition
      row has as its child, and no privilege names such a child. */
  ghost predicate RelationsOk(s: State) {
    && (forall r <- s.relations :: r < s.nextOid && (s.relations[r] == Partition ==> HasRow(s, r)))
    && (forall row <- s.partitions :: row.child < s.nextOid && (row.child in s.relations ==> s.relations[row.child] == Partition))
    && (forall row <- s.partitions, other <- s.partitions :: row.child == other.child ==> row == other)
    && (forall p <- s.accounts.privileges :: p.target.RelationObject? ==> p.target.oid < s.nextOid)
    && (forall p <- s.accounts.privileges, row <- s.partitions :: p.target != RelationObject(row.child))
  }

  ghost predicate NamesOk(a: Accounts) {
    && (forall u, v :: u in a.users && v in a.users && EqIgnoreCase(a.users[u].name, a.users[v].name) ==> u == v)
    && (forall r, q :: r in a.roles && q in a.roles && EqIgnoreCase(a.roles[r], a.roles[q]) ==> r == q)
  }

  /** Memberships and privileges refer to accounts that exist. */
  ghost predicate ReferencesOk(a: Accounts) {
    && (forall m <- a.members :: m.user in a.users && m.role in a.roles)
    && (forall p <- a.privileges :: HolderExists(a, p.holder))
  }

  ghost predicate IdsOk(s: State) {
    (forall u <- s.accounts.users :: u < s.nextOid) && (forall r <- s.accounts.roles :: r < s.nextOid)
  }

  ghost predicate Sound(s: State) {
    RelationsOk(s) && NamesOk(s.accounts) && ReferencesOk(s.accounts) && IdsOk(s)
  }

  lemma DropKeepsRelations(s: State, oid: int)
    requires RelationsOk(s)
    ensures RelationsOk(Drop(s, oid))
  {
    var t := Drop(s, oid);
    forall r <- t.relations | t.relations[r] == Partition
      ensures HasRow(t, r)
    {
      var row :| row in s.partitions && row.child == r;
      assert row == Attachment(row.parent, r);
      assert row in t.partitions;
    }
  }

  lemma PartitionKeepsRelations(s: State, parent: int, more: nat)
    requires RelationsOk(s)
    ensures RelationsOk(NewPartition(s, parent, more))
  {
    var t := NewPartition(s, parent, more);
    if t != s {
      assert Attachment(parent, s.nextOid) in t.partitions;
      forall r <- t.relations | t.relations[r] == Partition && r != s.nextOid
        ensures HasRow(t, r)
      {
        var row :| row in s.partitions && row.child == r;
        assert row in t.partitions;
      }
    }
  }

  lemma RepairKeepsRelations(s: State, row: Attachment, more: nat)
    requires RelationsOk(s)
    ensures RelationsOk(Repair(s, row, more)) && RelationsOk(Expire(s, row))
  {
    assert forall r :: HasRow(s, r) ==> HasRow(Repair(s, row, more), r) && HasRow(Expire(s, row), r);
  }

  /** Mutations that leave relations and rs_partition alone. */
  lemma SameRelations(s: State, t: State)
    requires RelationsOk(s) && t.relations == s.relations && t.partitions == s.partitions && t.nextOid >= s.nextOid
    requires t.accounts.privileges <= s.accounts.privileges
    ensures RelationsOk(t)
  {
    assert forall r :: HasRow(s, r) ==> HasRow(t, r);
  }

  lemma NewRelationKeepsRelations(s: State, more: nat)
    requires RelationsOk(s)
    ensures RelationsOk(Apply(s, CreateRelation(more)))
  {
    assert forall r :: HasRow(s, r) ==> HasRow(Apply(s, CreateRelation(more)), r);
  }

  lemma GrantKeepsSound(s: State, p: Privilege)
    requires Sound(s)
    ensures Sound(Apply(s, Grant(p)))
  {
    var t := Apply(s, Grant(p));
    assert forall r :: HasRow(s, r) ==> HasRow(t, r);
    forall g <- t.accounts.privileges, row <- t.partitions
      ensures g.target != RelationObject(row.child)
    {
      assert row in s.partitions;
    }
  }

  lemma UserKeepsSound(s: State, name: string, more: nat)
    requires Sound(s)
    ensures Sound(NewUser(s, name, more))
  {
    var a, t := s.accounts, NewUser(s, name, more);
    if t != s {
      assert s.nextOid !in a.users;
      SameRelations(s, t);
      assert NamesOk(t.accounts);
      assert ReferencesOk(t.accounts);
    }
  }

  lemma RoleKeepsSound(s: State, name: string, more: nat)
    requires Sound(s)
    ensures Sound(NewRole(s, name, more))
  {
    var t := NewRole(s, name, more);
    if t != s {
      assert s.nextOid !in s.accounts.roles;
      SameRelations(s, t);
      assert NamesOk(t.accounts) && ReferencesOk(t.accounts);
    }
  }

  lemma RemovalsKeepSound(s: State, id: int, cascade: bool)
    requires Sound(s)
    ensures Sound(RemoveUser(s, id)) && Sound(RemoveRole(s, id, cascade))
  {
    SameRelations(s, RemoveUser(s, id));
    SameRelations(s, RemoveRole(s, id, cascade));
    assert ReferencesOk(RemoveUser(s, id).accounts) && NamesOk(RemoveUser(s, id).accounts);
    assert ReferencesOk(RemoveRole(s, id, cascade).accounts) && NamesOk(RemoveRole(s, id, cascade).accounts);
  }

  predicate ChangesRelations(step: Step) {
    step.CreateRelation? || step.DropRelation? || step.AddPartition? || step.ExpirePartition? || step.RepairPartition?
  }

  lemma RelationStepKeepsSound(s: State, step: Step)
    requires Sound(s) && ChangesRelations(step)
    ensures Sound(Apply(s, step)) && Apply(s, step).nextOid >= s.nextOid
  {
    match step
    case CreateRelation(more) => NewRelationKeepsRelations(s, more);
    case DropRelation(oid) => DropKeepsRelations(s, oid);
    case AddPartition(parent, more) => PartitionKeepsRelations(s, parent, more);
    case ExpirePartition(row) => RepairKeepsRelations(s, row, 0);
    case RepairPartition(row, more) => RepairKeepsRelations(s, row, more);
  }

  lemma AccountStepKeepsSound(s: State, step: Step)
    requires Sound(s) && !ChangesRelations(step)
    ensures Sound(Apply(s, step)) && Apply(s, step).nextOid >= s.nextOid
  {
    match step
    case Grant(p) => GrantKeepsSound(s, p);
    case CreateUser(username, more) => UserKeepsSound(s, username, more);
    case DropUser(user) => RemovalsKeepSound(s, user, true);
    case CreateRole(rolename, more) => RoleKeepsSound(s, rolename, more);
    case DropRole(role, cascade) => RemovalsKeepSound(s, role, cascade);
    case _ => SameRelations(s, Apply(s, step));
  }

  lemma ApplyKeepsSound(s: State, step: Step)
    requires Sound(s)
    ensures Sound(Apply(s, step)) && Apply(s, step).nextOid >= s.nextOid
  {
    if ChangesRelations(step) {
      RelationStepKeepsSound(s, step);
    } else {
      AccountStepKeepsSound(s, step);
    }
  }

  /** Every state of a run from a sound one is sound. */
  lemma {:induction false} RunKeepsSound(s: State, steps: seq<Step>, i: nat)
    requires Sound(s) && i <= |steps|
    ensures Sound(Run(s, steps)[i])
    decreases i
  {
    if i > 0 {
      RunKeepsSound(s, steps, i - 1);
      RunSteps(s, steps, i - 1);
      ApplyKeepsSound(Run(s, steps)[i - 1], steps[i - 1]);
    }
  }

  /** `insert_bootstrap_rows` and the five privilege ids after it. */
  const BOOTSTRAP: State := State(
    FIRST_USER_OID + 5, map[], {},
    Accounts(map[ADMIN_USER_ID := User("admin", true)],
             map[20 := "admin", 21 := "operator", 22 := "ddl", 23 := "writer", 24 := "reader"],
             {Membership(ADMIN_USER_ID, ROLE_ADMIN_ID)},
             {Privilege(RoleHolder(20), SystemObject, "manage_snapshot"), Privilege(RoleHolder(20), SystemObject, "manage_catalog"),
              Privilege(RoleHolder(20), SystemObject, "manage_user"), Privilege(RoleHolder(21), SystemObject, "manage_snapshot"),
              Privilege(RoleHolder(21), SystemObject, "manage_catalog")}))

  lemma BuiltinRoleNamesDiffer()
    ensures NamesOk(BOOTSTRAP.accounts)
  {
    assert Lower("admin")[0] == 'a' && Lower("operator")[0] == 'o' && Lower("ddl")[0] == 'd'
        && Lower("writer")[0] == 'w' && Lower("reader")[0] == 'r';
  }

  lemma BootstrapIsSound()
    ensures Sound(BOOTSTRAP)
  {
    BuiltinRoleNamesDiffer();
  }

  /// Visibility over runs

  lemma SoundNamesAreUnique(a: Accounts)
    requires NamesOk(a) && ReferencesOk(a)
    ensures UniqueUserNames(a) && UniqueRoleNames(a) && MembersHaveRoles(a)
  {}

  lemma VisibleIffReadableInRun(s: State, steps: seq<Step>, i: nat, name: string, p: Principal, relation: int, namespace: int)
    requires Sound(s) && i <= |steps| && PrincipalFor(Run(s, steps)[i].accounts, name, p)
    ensures var a := Run(s, steps)[i].accounts;
            Visible(a, name, relation, namespace) <==> MayActOn(a, p, relation, namespace, "read")
  {
    RunKeepsSound(s, steps, i);
    var a := Run(s, steps)[i].accounts;
    SoundNamesAreUnique(a);
    VisibleIffReadable(a, name, p, relation, namespace);
  }

  /** In every state any run from bootstrap reaches, for every active user: the metadata views show a
      relation exactly when the user may read it. */
  lemma VisibleIffReadableInEveryRun(steps: seq<Step>, i: nat, name: string, p: Principal, relation: int, namespace: int)
    requires i <= |steps| && PrincipalFor(Run(BOOTSTRAP, steps)[i].accounts, name, p)
    ensures var a := Run(BOOTSTRAP, steps)[i].accounts;
            Visible(a, name, relation, namespace) <==> MayActOn(a, p, relation, namespace, "read")
  {
    BootstrapIsSound();
    VisibleIffReadableInRun(BOOTSTRAP, steps, i, name, p, relation, namespace);
  }

  /// Ids that come back

  /** A relation comes only by its creation, as a new partition of a relation of a user schema, or by the repair of
      a partition; and an rs_partition row comes only with a new partition and goes only with its parent. */
  lemma RelationComesIff(s: State, step: Step, oid: int, row: Attachment)
    requires Sound(s)
    ensures var t, partition := Apply(s, step),
                step.AddPartition? && step.parent in s.relations && s.relations[step.parent] == UserRelation;
      && (oid !in s.relations ==>
            && (oid in t.relations <==>
                || (oid == s.nextOid && (step.CreateRelation? || partition))
                || (step.RepairPartition? && step.row in s.partitions && step.row.child == oid && step.row.parent in s.relations))
            && (oid in t.relations ==> t.relations[oid] == if step.CreateRelation? then UserRelation else Partition))
      && (row in t.partitions <==>
          || (partition && row == Attachment(step.parent, s.nextOid))
          || (row in s.partitions && !(step == DropRelation(row.parent) && row.parent in s.relations && s.relations[row.parent] == UserRelation)))
  {}

  /** One step brings an id that was handed out before back exactly if it repairs a partition whose
      rs_partition row is still there. */
  lemma IdReturnsIff(s: State, step: Step, oid: int)
    requires Sound(s) && oid < s.nextOid && oid !in s.relations
    ensures oid in Apply(s, step).relations <==>
            step.RepairPartition? && step.row in s.partitions && step.row.child == oid && step.row.parent in s.relations
  {}

  /** A row of rs_partition for a given child is never new once the child's id was handed out. */
  lemma RowsAreOld(s: State, step: Step, row: Attachment)
    requires row in Apply(s, step).partitions && row.child < s.nextOid
    ensures row in s.partitions
  {}

  lemma {:induction false} RowsStayOld(s: State, steps: seq<Step>, row: Attachment, i: nat, j: nat)
    requires Sound(s) && i <= j <= |steps| && row.child < Run(s, steps)[i].nextOid && row in Run(s, steps)[j].partitions
    ensures row in Run(s, steps)[i].partitions
    decreases j - i
  {
    if i < j {
      NextOidGrows(s, steps, i, j - 1);
      RunSteps(s, steps, j - 1);
      RowsAreOld(Run(s, steps)[j - 1], steps[j - 1], row);
      RowsStayOld(s, steps, row, i, j - 1);
    }
  }

  lemma {:induction false} NextOidGrows(s: State, steps: seq<Step>, i: nat, j: nat)
    requires Sound(s) && i <= j <= |steps|
    ensures Run(s, steps)[i].nextOid <= Run(s, steps)[j].nextOid
    decreases j - i
  {
    if i < j {
      NextOidGrows(s, steps, i, j - 1);
      RunSteps(s, steps, j - 1);
      RunKeepsSound(s, steps, j - 1);
      ApplyKeepsSound(Run(s, steps)[j - 1], steps[j - 1]);
    }
  }

  /** Over any run, an id that is gone is back later only through the repair of the partition that had it
      before: the row it is repaired from was already there when the id was gone. */
  lemma {:induction false} IdsReturnOnlyByRepair(s: State, steps: seq<Step>, oid: int, i: nat, j: nat) returns (k: nat)
    requires Sound(s) && i <= j <= |steps| && oid < Run(s, steps)[i].nextOid
    requires oid !in Run(s, steps)[i].relations && oid in Run(s, steps)[j].relations
    ensures i <= k < j && steps[k].RepairPartition? && steps[k].row.child == oid && steps[k].row in Run(s, steps)[i].partitions
    decreases j - i
  {
    RunSteps(s, steps, j - 1);
    RunKeepsSound(s, steps, j - 1);
    NextOidGrows(s, steps, i, j - 1);
    if oid in Run(s, steps)[j - 1].relations {
      k := IdsReturnOnlyByRepair(s, steps, oid, i, j - 1);
    } else {
      k := j - 1;
      IdReturnsIff(Run(s, steps)[k], steps[k], oid);
      RowsStayOld(s, steps, steps[k].row, i, k);
    }
  }

  /** The id of a dropped relation that was no partition never comes back. */
  lemma GoneStaysGone(s: State, steps: seq<Step>, oid: int, i: nat, j: nat)
    requires Sound(s) && i <= j <= |steps| && oid < Run(s, steps)[i].nextOid && oid !in Run(s, steps)[i].relations
    requires forall row <- Run(s, steps)[i].partitions :: row.child != oid
    ensures oid !in Run(s, steps)[j].relations
  {
    if oid in Run(s, steps)[j].relations {
      var k := IdsReturnOnlyByRepair(s, steps, oid, i, j);
    }
  }

  /// Privileges over runs

  /** No privilege is waiting for a relation or partition about to be created. */
  lemma NewRelationStartsBare(s: State, steps: seq<Step>, i: nat, p: Privilege)
    requires Sound(s) && i < |steps| && (steps[i].CreateRelation? || steps[i].AddPartition?)
    requires p in Run(s, steps)[i + 1].accounts.privileges
    ensures p.target != RelationObject(Run(s, steps)[i].nextOid)
  {
    RunKeepsSound(s, steps, i);
    RunSteps(s, steps, i);
  }

  /** Nor for a partition that is repaired under its old id: nobody could grant on it. */
  lemma RepairedPartitionStartsBare(s: State, steps: seq<Step>, i: nat, row: Attachment, p: Privilege)
    requires Sound(s) && i <= |steps| && row in Run(s, steps)[i].partitions && p in Run(s, steps)[i].accounts.privileges
    ensures p.target != RelationObject(row.child)
  {
    RunKeepsSound(s, steps, i);
  }

  /** The step after which a privilege has been there ever since. */
  lemma {:induction false} LastGrant(s: State, steps: seq<Step>, p: Privilege, n: nat) returns (k: nat)
    requires n <= |steps| && p in Run(s, steps)[n].accounts.privileges
    ensures k <= n && p in Run(s, steps)[k].accounts.privileges
    ensures k == 0 || (steps[k - 1] == Grant(p) && (p.target.RelationObject? ==> p.target.oid in Run(s, steps)[k].relations))
    decreases n
  {
    if n == 0 {
      k := 0;
    } else {
      RunSteps(s, steps, n - 1);
      if steps[n - 1] == Grant(p) && MayGrant(Run(s, steps)[n - 1], p) {
        k := n;
      } else {
        k := LastGrant(s, steps, p, n - 1);
      }
    }
  }

  /** Over any run, a privilege on an existing relation was there from the start or was granted while this
      same relation existed, and the relation has existed ever since: privileges left behind by dropped
      relations authorize nothing later, repairs of partitions included. */
  lemma PrivilegesNeverGoStale(s: State, steps: seq<Step>, p: Privilege, n: nat) returns (k: nat)
    requires Sound(s) && n <= |steps| && p in Run(s, steps)[n].accounts.privileges
    requires p.target.RelationObject? && p.target.oid in Run(s, steps)[n].relations
    ensures k <= n && (k == 0 || steps[k - 1] == Grant(p))
    ensures forall j :: k <= j <= n ==> p.target.oid in Run(s, steps)[j].relations
  {
    k := LastGrant(s, steps, p, n);
    RunKeepsSound(s, steps, k);
    forall j | k <= j <= n
      ensures p.target.oid in Run(s, steps)[j].relations
    {
      StillThere(s, steps, p, k, j, n);
    }
  }

  lemma StillThere(s: State, steps: seq<Step>, p: Privilege, k: nat, j: nat, n: nat)
    requires Sound(s) && k <= j <= n <= |steps| && p.target.RelationObject?
    requires p in Run(s, steps)[n].accounts.privileges && p.target.oid < Run(s, steps)[k].nextOid
    requires p.target.oid in Run(s, steps)[n].relations
    ensures p.target.oid in Run(s, steps)[j].relations
  {
    var oid := p.target.oid;
    NextOidGrows(s, steps, k, j);
    if oid !in Run(s, steps)[j].relations {
      var r := IdsReturnOnlyByRepair(s, steps, oid, j, n);
      PrivilegedIsNoPartition(s, steps, p, n);
      ReturnedIsPartition(s, steps, oid, j, n);
    }
  }

  /** A privilege never names a partition. */
  lemma PrivilegedIsNoPartition(s: State, steps: seq<Step>, p: Privilege, n: nat)
    requires Sound(s) && n <= |steps| && p in Run(s, steps)[n].accounts.privileges && p.target.RelationObject?
    requires p.target.oid in Run(s, steps)[n].relations
    ensures Run(s, steps)[n].relations[p.target.oid] == UserRelation
  {
    RunKeepsSound(s, steps, n);
    var t := Run(s, steps)[n];
    assert t.relations[p.target.oid] == Partition ==> HasRow(t, p.target.oid);
  }

  /** An id that was gone is, whenever it is back, a partition's. */
  lemma {:induction false} ReturnedIsPartition(s: State, steps: seq<Step>, oid: int, i: nat, j: nat)
    requires Sound(s) && i <= j <= |steps| && oid < Run(s, steps)[i].nextOid && oid !in Run(s, steps)[i].relations
    ensures oid in Run(s, steps)[j].relations ==> Run(s, steps)[j].relations[oid] == Partition
    decreases j
  {
    if i < j {
      ReturnedIsPartition(s, steps, oid, i, j - 1);
      RunSteps(s, steps, j - 1);
      RunKeepsSound(s, steps, j - 1);
      NextOidGrows(s, steps, i, j - 1);
      StepKeepsPartitions(Run(s, steps)[j - 1], steps[j - 1], oid);
    }
  }

  lemma StepKeepsPartitions(s: State, step: Step, oid: int)
    requires Sound(s) && oid < s.nextOid && (oid in s.relations ==> s.relations[oid] == Partition)
    ensures oid in Apply(s, step).relations ==> Apply(s, step).relations[oid] == Partition
  {}

  /// What each step gives and takes

  /** Somebody is a member, or the role holds something. */
  ghost predicate IsUsed(a: Accounts, role: int) {
    (exists user: int :: Membership(user, role) in a.members) || (exists p: Privilege :: p in a.privileges && p.holder == RoleHolder(role))
  }

  /** A user or role appears only by its creation, under a name nobody has and a new id, and disappears only by its
      drop: the default admin and the built-in roles stay, and so does a role in use unless CASCADE is given. */
  lemma AccountsChange(s: State, step: Step, id: int)
    requires Sound(s)
    ensures var a, b := s.accounts, Apply(s, step).accounts;
      && (id in b.users <==>
          || (id in a.users && (step != DropUser(id) || EqIgnoreCase(a.users[id].name, "admin")))
          || (id == s.nextOid && step.CreateUser? && ROLE_READER_ID in a.roles
              && forall u <- a.users :: !EqIgnoreCase(a.users[u].name, step.username)))
      && (id in b.users ==> b.users[id] == if id in a.users then a.users[id] else User(step.username, true))
      && (id in b.roles <==>
          || (id in a.roles && (!step.DropRole? || step.role != id || 20 <= id <= 24 || (!step.cascade && IsUsed(a, id))))
          || (id == s.nextOid && step.CreateRole? && forall r <- a.roles :: !EqIgnoreCase(a.roles[r], step.rolename)))
      && (id in b.roles ==> b.roles[id] == if id in a.roles then a.roles[id] else step.rolename)
  {}

  /** A relation goes only by its own drop, with its parent's, or as a partition that expires; no relation changes
      its kind. */
  lemma RelationGoesIff(s: State, step: Step, oid: int)
    requires Sound(s) && oid in s.relations
    ensures oid !in Apply(s, step).relations <==>
            || (step.DropRelation? && step.oid in s.relations && s.relations[step.oid] == UserRelation
                && (oid == step.oid || Attachment(step.oid, oid) in s.partitions))
            || (step.ExpirePartition? && step.row in s.partitions && oid == step.row.child)
    ensures oid in Apply(s, step).relations ==> Apply(s, step).relations[oid] == s.relations[oid]
  {}

  /** One step gives a privilege by granting it and takes it by revoking it or by dropping its holder. */
  lemma PrivilegeChanges(s: State, step: Step, p: Privilege)
    requires Sound(s)
    ensures p in Apply(s, step).accounts.privileges <==>
            || (step == Grant(p) && MayGrant(s, p))
            || (p in s.accounts.privileges && step != Revoke(p) && HolderExists(Apply(s, step).accounts, p.holder))
  {
    ApplyKeepsSound(s, step);
  }

  /** The privilege is held in state `k` for its own sake: it was there from the start, or was just granted to an
      account that exists, on a relation of a user schema if on a relation. */
  ghost predicate GivenAt(s: State, steps: seq<Step>, p: Privilege, k: nat)
    requires k <= |steps|
  {
    if k == 0 then p in s.accounts.privileges
    else
      var before := Run(s, steps)[k - 1];
      && steps[k - 1] == Grant(p) && HolderExists(before.accounts, p.holder)
      && (p.target.RelationObject? ==> p.target.oid in before.relations && before.relations[p.target.oid] == UserRelation)
  }

  /** The step does not revoke it, and its holder stays. */
  ghost predicate Keeps(s: State, steps: seq<Step>, p: Privilege, j: nat)
    requires j < |steps|
  {
    steps[j] != Revoke(p) && HolderExists(Run(s, steps)[j + 1].accounts, p.holder)
  }

  ghost predicate LeftAlone(s: State, steps: seq<Step>, p: Privilege, k: nat, n: nat)
    requires n <= |steps|
  {
    forall j: nat :: k <= j < n ==> Keeps(s, steps, p, j)
  }

  lemma LeftAloneSteps(s: State, steps: seq<Step>, p: Privilege, k: nat, last: nat)
    requires k <= last < |steps|
    ensures LeftAlone(s, steps, p, k, last + 1) <==>
            LeftAlone(s, steps, p, k, last) && Keeps(s, steps, p, last)
  {}

  lemma HeldSteps(s: State, steps: seq<Step>, p: Privilege, last: nat)
    requires Sound(s) && last < |steps|
    ensures p in Run(s, steps)[last + 1].accounts.privileges <==>
            GivenAt(s, steps, p, last + 1) || (p in Run(s, steps)[last].accounts.privileges && Keeps(s, steps, p, last))
  {
    RunSteps(s, steps, last);
    RunKeepsSound(s, steps, last);
    PrivilegeChanges(Run(s, steps)[last], steps[last], p);
  }

  /** Over any run: a privilege is held exactly when it was given at some point, and since then was neither revoked
      nor lost its holder. Nothing else gives or takes it. */
  lemma {:induction false} HeldIffGiven(s: State, steps: seq<Step>, p: Privilege, n: nat)
    requires Sound(s) && n <= |steps|
    ensures p in Run(s, steps)[n].accounts.privileges <==> exists k: nat :: k <= n && GivenAt(s, steps, p, k) && LeftAlone(s, steps, p, k, n)
    decreases n
  {
    if n == 0 {
      assert GivenAt(s, steps, p, 0) && LeftAlone(s, steps, p, 0, 0) <==> p in s.accounts.privileges;
    } else {
      var last := n - 1;
      HeldIffGiven(s, steps, p, last);
      HeldSteps(s, steps, p, last);
      assert LeftAlone(s, steps, p, n, n);
      forall k: nat | k <= last {
        LeftAloneSteps(s, steps, p, k, last);
      }
    }
  }

  /** The same for a membership: the user and the role exist, and the user was just put into the role, or was just
      created as a reader. */
  ghost predicate JoinedAt(s: State, steps: seq<Step>, m: Membership, k: nat)
    requires k <= |steps|
  {
    if k == 0 then m in s.accounts.members
    else
      var a := Run(s, steps)[k - 1].accounts;
      || (steps[k - 1] == GrantRole(m) && BothExist(a, m))
      || (steps[k - 1].CreateUser? && m.user !in a.users && m.user in Run(s, steps)[k].accounts.users && m.role == ROLE_READER_ID)
  }

  ghost predicate BothExist(a: Accounts, m: Membership) { m.user in a.users && m.role in a.roles }

  ghost predicate KeepsMember(s: State, steps: seq<Step>, m: Membership, j: nat)
    requires j < |steps|
  {
    steps[j] != RevokeRole(m) && BothExist(Run(s, steps)[j + 1].accounts, m)
  }

  ghost predicate StaysMember(s: State, steps: seq<Step>, m: Membership, k: nat, n: nat)
    requires n <= |steps|
  {
    forall j: nat :: k <= j < n ==> KeepsMember(s, steps, m, j)
  }

  lemma MembershipChanges(s: State, step: Step, m: Membership)
    requires Sound(s)
    ensures var a, b := s.accounts, Apply(s, step).accounts;
            m in b.members <==>
            || (step == GrantRole(m) && BothExist(a, m))
            || (step.CreateUser? && m.user !in a.users && m.user in b.users && m.role == ROLE_READER_ID)
            || (m in a.members && step != RevokeRole(m) && BothExist(b, m))
  {
    ApplyKeepsSound(s, step);
  }

  lemma StaysMemberSteps(s: State, steps: seq<Step>, m: Membership, k: nat, last: nat)
    requires k <= last < |steps|
    ensures StaysMember(s, steps, m, k, last + 1) <==>
            StaysMember(s, steps, m, k, last) && KeepsMember(s, steps, m, last)
  {}

  lemma MemberSteps(s: State, steps: seq<Step>, m: Membership, last: nat)
    requires Sound(s) && last < |steps|
    ensures m in Run(s, steps)[last + 1].accounts.members <==>
            JoinedAt(s, steps, m, last + 1) || (m in Run(s, steps)[last].accounts.members && KeepsMember(s, steps, m, last))
  {
    RunSteps(s, steps, last);
    RunKeepsSound(s, steps, last);
    MembershipChanges(Run(s, steps)[last], steps[last], m);
  }

  /** Over any run: a user is a member of a role exactly when it joined at some point, and since then was not taken
      out while both stayed. */
  lemma {:induction false} MemberIffJoined(s: State, steps: seq<Step>, m: Membership, n: nat)
    requires Sound(s) && n <= |steps|
    ensures m in Run(s, steps)[n].accounts.members <==> exists k: nat :: k <= n && JoinedAt(s, steps, m, k) && StaysMember(s, steps, m, k, n)
    decreases n
  {
    if n == 0 {
      assert JoinedAt(s, steps, m, 0) && StaysMember(s, steps, m, 0, 0) <==> m in s.accounts.members;
    } else {
      var last := n - 1;
      MemberIffJoined(s, steps, m, last);
      MemberSteps(s, steps, m, last);
      assert StaysMember(s, steps, m, n, n);
      forall k: nat | k <= last {
        StaysMemberSteps(s, steps, m, k, last);
      }
    }
  }
}
