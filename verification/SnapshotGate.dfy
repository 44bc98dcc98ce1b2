/** The gate between writers and snapshots, and the one writer it does not stop: src/db/worker.rs,
    `save_snapshot_blocking` and the login timestamps of src/catalog/auth/principal.rs. */
module SnapshotGate {
  import opened Text
  import opened CatalogChecksum
  import opened CatalogKernel
  import opened CatalogMutations

  /// Users

  /** A row of rs_user, its cells as text. */
  datatype User = User(
    userId: Bytes, username: Bytes, passwordHash: Bytes, passwordAlgo: Bytes, mysqlAuthPlugin: Bytes,
    mysqlAuthString: Bytes, status: Bytes, isBuiltin: Bytes, createdAt: Bytes, updatedAt: Bytes, lastLoginAt: Bytes)

  datatype UserColumn =
    | UserId | Username | PasswordHash | PasswordAlgo | MysqlAuthPlugin | MysqlAuthString | AccountStatus | IsBuiltin
    | CreatedAt | UpdatedAt | LastLoginAt

  function CellOf(u: User, c: UserColumn): Bytes {
    match c
    case UserId => u.userId
    case Username => u.username
    case PasswordHash => u.passwordHash
    case PasswordAlgo => u.passwordAlgo
    case MysqlAuthPlugin => u.mysqlAuthPlugin
    case MysqlAuthString => u.mysqlAuthString
    case AccountStatus => u.status
    case IsBuiltin => u.isBuiltin
    case CreatedAt => u.createdAt
    case UpdatedAt => u.updatedAt
    case LastLoginAt => u.lastLoginAt
  }

  /** What a query with these columns selects from a row. */
  function Select(u: User, columns: seq<UserColumn>): (r: Row)
    ensures |r| == |columns| && forall i :: 0 <= i < |r| ==> r[i] == CellOf(u, columns[i])
  {
    seq(|columns|, i requires 0 <= i < |columns| => CellOf(u, columns[i]))
  }

  /** The columns of the checksum's rs_user query. */
  const HASHED_COLUMNS: seq<UserColumn> := [
    UserId, Username, PasswordHash, PasswordAlgo, MysqlAuthPlugin, MysqlAuthString, AccountStatus, IsBuiltin]

  /** `SET last_login_at = CURRENT_TIMESTAMP, updated_at = CURRENT_TIMESTAMP` */
  function Stamp(u: User, now: Bytes): User { u.(lastLoginAt := now, updatedAt := now) }

  predicate IsStamped(c: UserColumn) { c == UpdatedAt || c == LastLoginAt }

  lemma StampSets(u: User, now: Bytes, c: UserColumn)
    ensures CellOf(Stamp(u, now), c) == if IsStamped(c) then now else CellOf(u, c)
  {}

  /** A query misses every login exactly if it selects neither timestamp. */
  lemma LoginIsMissedIff(columns: seq<UserColumn>)
    ensures (forall u, now :: Select(Stamp(u, now), columns) == Select(u, columns))
       <==> (forall i :: 0 <= i < |columns| ==> !IsStamped(columns[i]))
  {
    if i :| 0 <= i < |columns| && IsStamped(columns[i]) {
      var u := User([], [], [], [], [], [], [], [], [], [], []);
      StampSets(u, [0], columns[i]);
      assert Select(Stamp(u, [0]), columns)[i] != Select(u, columns)[i];
    } else {
      forall u, now
        ensures Select(Stamp(u, now), columns) == Select(u, columns)
      {
        forall i | 0 <= i < |columns|
          ensures CellOf(Stamp(u, now), columns[i]) == CellOf(u, columns[i])
        {
          StampSets(u, now, columns[i]);
        }
      }
    }
  }

  /// The database

  /** `users` is rs_user in order of user id, `data` everything else the checksum does not cover. */
  datatype Stored<Q> = Stored(users: seq<User>, data: Q)

  /** Where rs_user is among the tables the kernel does not interpret. */
  const USERS := 12

  function HashedUsers(users: seq<User>): (t: Table)
    ensures |t| == |users| && forall i :: 0 <= i < |t| ==> t[i] == Select(users[i], HASHED_COLUMNS)
  {
    seq(|users|, i requires 0 <= i < |users| => Select(users[i], HASHED_COLUMNS))
  }

  /** The cells the checksum reads of rs_user are those of its rows. */
  predicate Mirrors<Q>(db: Db<Stored<Q>>) { db.others[USERS] == HashedUsers(db.physical.users) }

  function FindUser(users: seq<User>, username: Bytes): (r: Option<User>)
    ensures r.None? <==> forall i :: 0 <= i < |users| ==> users[i].username != username
    ensures r.Some? ==> exists i ::
              0 <= i < |users| && users[i] == r.value && users[i].username == username && forall j :: 0 <= j < i ==> users[j].username != username
  {
    if users == [] then None else if users[0].username == username then Some(users[0]) else FindUser(users[1..], username)
  }

  function StampId(users: seq<User>, userId: Bytes, now: Bytes): (r: seq<User>)
    ensures |r| == |users|
    ensures forall i :: 0 <= i < |r| ==> r[i] == if users[i].userId == userId then Stamp(users[i], now) else users[i]
  {
    seq(|users|, i requires 0 <= i < |users| => if users[i].userId == userId then Stamp(users[i], now) else users[i])
  }

  lemma UsersKeepShape(others: OtherTables, users: seq<User>)
    ensures Shaped(OTHER_QUERIES, others[USERS := HashedUsers(users)])
  {
    assert OTHER_QUERIES[USERS].columns == 8 == |HASHED_COLUMNS|;
  }

  function WithUsers<Q>(db: Db<Stored<Q>>, users: seq<User>): Db<Stored<Q>> {
    UsersKeepShape(db.others, users);
    db.(physical := db.physical.(users := users), others := db.others[USERS := HashedUsers(users)])
  }

  /** `authenticate`: an active account whose credentials check out is stamped, in a commit of its own. */
  function Login<Q>(db: Db<Stored<Q>>, username: Bytes, verified: bool, now: Bytes): Db<Stored<Q>> {
    match FindUser(db.physical.users, username)
    case None => db
    case Some(u) =>
      if u.status != Ascii("active") || !verified then db
      else WithUsers(db, StampId(db.physical.users, u.userId, now))
  }

  /** Equal but for the two timestamps of users. */
  ghost predicate SameButTimes<Q>(a: Db<Stored<Q>>, b: Db<Stored<Q>>) {
    && b == a.(physical := b.physical) && a.physical.data == b.physical.data
    && |a.physical.users| == |b.physical.users|
    && forall i, c :: 0 <= i < |a.physical.users| && !IsStamped(c) ==> CellOf(a.physical.users[i], c) == CellOf(b.physical.users[i], c)
  }

  lemma StampedUsersHashAlike(users: seq<User>, userId: Bytes, now: Bytes)
    ensures HashedUsers(StampId(users, userId, now)) == HashedUsers(users)
  {
    LoginIsMissedIff(HASHED_COLUMNS);
    forall i | 0 <= i < |users|
      ensures HashedUsers(StampId(users, userId, now))[i] == HashedUsers(users)[i]
    {
      assert Select(Stamp(users[i], now), HASHED_COLUMNS) == Select(users[i], HASHED_COLUMNS);
    }
  }

  /** A login changes no cell the checksum reads, so epoch, checksum and all else stay. */
  lemma LoginIsUnhashed<Q>(db: Db<Stored<Q>>, username: Bytes, verified: bool, now: Bytes)
    requires Mirrors(db)
    ensures Mirrors(Login(db, username, verified, now)) && SameButTimes(db, Login(db, username, verified, now))
    ensures Tables(Login(db, username, verified, now)) == Tables(db)
    ensures Clean(db) ==> Clean(Login(db, username, verified, now))
  {
    var t := Login(db, username, verified, now);
    if t != db {
      StampedUsersHashAlike(db.physical.users, FindUser(db.physical.users, username).value.userId, now);
      assert t.others == db.others;
      forall i, c | 0 <= i < |db.physical.users| && !IsStamped(c)
        ensures CellOf(db.physical.users[i], c) == CellOf(t.physical.users[i], c)
      {
        StampSets(db.physical.users[i], now, c);
      }
    }
  }

  /// Commands

  datatype Kind =
    | RunRead | RunWrite | AuthenticateUser | Describe | ImportParquet | CreateVectorIndex | VectorIndexStatus
    | VectorSearch | VectorUpsert | VectorDelete | RebuildVectorIndex | CompactVectorIndex

  /** Which arms of the worker's loop lock the gate: all but those that only look, and the login. */
  predicate TakesGate(kind: Kind)
    ensures !TakesGate(kind) <==> kind in {RunRead, AuthenticateUser, Describe, VectorIndexStatus, VectorSearch}
  {
    match kind
    case RunWrite => true
    case ImportParquet => true
    case CreateVectorIndex => true
    case VectorUpsert => true
    case VectorDelete => true
    case RebuildVectorIndex => true
    case CompactVectorIndex => true
    case RunRead => false
    case AuthenticateUser => false
    case Describe => false
    case VectorIndexStatus => false
    case VectorSearch => false
  }

  /** A command and the operations it comes to; the arms without the gate run none. */
  datatype Command<Q> = Command(kind: Kind, ops: seq<Operation<Stored<Q>>>)

  ghost predicate CommandOk<Q>(c: Command<Q>) { AllOk(c.ops) && (TakesGate(c.kind) || c.ops == []) }

  /// The workers

  /** `todo` are the states a running command has still to commit. */
  datatype Writer<Q> = WriterIdle | WriterWaiting(command: Command<Q>) | Running(kind: Kind, todo: seq<Committed<Stored<Q>>>)

  /** Catalog epoch and stored checksum. */
  function Meta<Q>(db: Db<Stored<Q>>): (int, string) { (db.epoch, db.stored) }

  /** What the snapshot worker has read so far: the metadata at the start, then one part after another. */
  datatype Snapshotter<Q> =
    | SnapshotIdle
    | SnapshotWaiting
    | Exporting(meta: (int, string), parts: seq<Db<Stored<Q>>>)

  /** A snapshot that was written, or the error that the catalog changed meanwhile. */
  datatype Saved<Q> = Written(meta: (int, string), parts: seq<Db<Stored<Q>>>) | CatalogChanged

  datatype Gate = Free | HeldByWriter | HeldBySnapshot

  /** `past` are the states the database has been in. */
  datatype State<Q> = State(
    db: Db<Stored<Q>>, gate: Gate, writer: Writer<Q>, snapshotter: Snapshotter<Q>, saved: seq<Saved<Q>>, past: seq<Db<Stored<Q>>>)

  datatype Step<Q> =
    | Arrives(command: Command<Q>)
    | Begins
    | Commit
    | LogsIn(username: Bytes, verified: bool, now: Bytes)
    | Ends
    | SnapshotArrives
    | SnapshotBegins
    | ExportPart
    | SnapshotEnds

  ghost predicate AllMirror<Q>(commits: seq<Committed<Stored<Q>>>) { forall i :: 0 <= i < |commits| ==> Mirrors(commits[i].db) }

  /** The steps that can be taken in a state. */
  ghost predicate Enabled<Q>(s: State<Q>, step: Step<Q>) {
    match step
    case Arrives(c) => s.writer.WriterIdle? && CommandOk(c)
    case Begins => s.writer.WriterWaiting? && s.gate == Free && AllMirror(History(s.db, s.writer.command.ops))
    case Commit => s.writer.Running? && s.writer.todo != []
    case LogsIn(_, _, _) => s.writer == Running(AuthenticateUser, [])
    case Ends => s.writer.Running? && s.writer.todo == []
    case SnapshotArrives => s.snapshotter.SnapshotIdle?
    case SnapshotBegins => s.snapshotter.SnapshotWaiting? && s.gate == Free
    case ExportPart => s.snapshotter.Exporting?
    case SnapshotEnds => s.snapshotter.Exporting?
  }

  function WithDb<Q>(s: State<Q>, db: Db<Stored<Q>>): State<Q> { s.(db := db, past := s.past + [db]) }

  function Take<Q>(s: State<Q>, step: Step<Q>): State<Q>
    requires Enabled(s, step)
  {
    match step
    case Arrives(c) => s.(writer := if TakesGate(c.kind) then WriterWaiting(c) else Running(c.kind, []))
    case Begins => s.(writer := Running(s.writer.command.kind, History(s.db, s.writer.command.ops)), gate := HeldByWriter)
    case Commit => WithDb(s, s.writer.todo[0].db).(writer := s.writer.(todo := s.writer.todo[1..]))
    case LogsIn(username, verified, now) => WithDb(s, Login(s.db, username, verified, now)).(writer := WriterIdle)
    case Ends => s.(writer := WriterIdle, gate := if TakesGate(s.writer.kind) then Free else s.gate)
    case SnapshotArrives => s.(snapshotter := SnapshotWaiting)
    case SnapshotBegins => s.(snapshotter := Exporting(Meta(s.db), []), gate := HeldBySnapshot)
    case ExportPart => s.(snapshotter := s.snapshotter.(parts := s.snapshotter.parts + [s.db]))
    case SnapshotEnds =>
      var result := if Meta(s.db) == s.snapshotter.meta then Written(s.snapshotter.meta, s.snapshotter.parts) else CatalogChanged;
      s.(snapshotter := SnapshotIdle, gate := Free, saved := s.saved + [result])
  }

  /// Runs

  function Start<Q>(db: Db<Stored<Q>>): State<Q> { State(db, Free, WriterIdle, SnapshotIdle, [], [db]) }

  /** A schedule: every step is enabled when it is taken. */
  ghost predicate Runs<Q>(s: State<Q>, steps: seq<Step<Q>>)
    decreases |steps|
  {
    steps == [] || (Enabled(s, steps[0]) && Runs(Take(s, steps[0]), steps[1..]))
  }

  ghost function After<Q>(s: State<Q>, steps: seq<Step<Q>>): State<Q>
    requires Runs(s, steps)
    decreases |steps|
  {
    if steps == [] then s else After(Take(s, steps[0]), steps[1..])
  }

  /// The invariant

  ghost predicate PartsFrom<Q>(h: Db<Stored<Q>>, parts: seq<Db<Stored<Q>>>) {
    forall i :: 0 <= i < |parts| ==> SameButTimes(h, parts[i])
  }

  /** All parts were read from one state the database was in, but for the timestamps; its journal is in
      order, its checksum current, and the metadata describes it. */
  ghost predicate OneState<Q>(past: seq<Db<Stored<Q>>>, meta: (int, string), parts: seq<Db<Stored<Q>>>) {
    exists i :: 0 <= i < |past| && Clean(past[i]) && Meta(past[i]) == meta && PartsFrom(past[i], parts)
  }

  ghost predicate GateOk<Q>(s: State<Q>) {
    && (s.gate == HeldByWriter <==> s.writer.Running? && TakesGate(s.writer.kind))
    && (s.gate == HeldBySnapshot <==> s.snapshotter.Exporting?)
    && (s.writer.WriterWaiting? ==> CommandOk(s.writer.command) && TakesGate(s.writer.command.kind))
    && (s.writer.Running? && !TakesGate(s.writer.kind) ==> s.writer.todo == [])
  }

  /** Between commands the catalog is clean; a running one will leave it clean. */
  ghost predicate DbOk<Q>(s: State<Q>) {
    && Mirrors(s.db) && s.past != [] && s.past[|s.past| - 1] == s.db
    && if s.gate == HeldByWriter && s.writer.Running? then AllMirror(s.writer.todo) && Clean(Last(s.db, s.writer.todo)) else Clean(s.db)
  }

  ghost predicate ExportOk<Q>(s: State<Q>) {
    s.snapshotter.Exporting? ==> s.snapshotter.meta == Meta(s.db) && PartsFrom(s.db, s.snapshotter.parts)
  }

  ghost predicate SavedOk<Q>(s: State<Q>) {
    forall i :: 0 <= i < |s.saved| ==> s.saved[i].Written? && OneState(s.past, s.saved[i].meta, s.saved[i].parts)
  }

  ghost predicate Inv<Q>(s: State<Q>) { GateOk(s) && DbOk(s) && ExportOk(s) && SavedOk(s) }

  lemma MorePast<Q>(past: seq<Db<Stored<Q>>>, db: Db<Stored<Q>>, meta: (int, string), parts: seq<Db<Stored<Q>>>)
    requires OneState(past, meta, parts)
    ensures OneState(past + [db], meta, parts)
  {
    var i :| 0 <= i < |past| && Clean(past[i]) && Meta(past[i]) == meta && PartsFrom(past[i], parts);
    assert (past + [db])[i] == past[i];
  }

  lemma SavedStaysOk<Q>(s: State<Q>, t: State<Q>, db: Db<Stored<Q>>)
    requires SavedOk(s) && t.saved == s.saved && t.past == s.past + [db]
    ensures SavedOk(t)
  {
    forall i | 0 <= i < |t.saved|
      ensures t.saved[i].Written? && OneState(t.past, t.saved[i].meta, t.saved[i].parts)
    {
      MorePast(s.past, db, s.saved[i].meta, s.saved[i].parts);
    }
  }

  lemma SameButTimesTrans<Q>(a: Db<Stored<Q>>, b: Db<Stored<Q>>, c: Db<Stored<Q>>)
    requires SameButTimes(a, b) && SameButTimes(a, c)
    ensures SameButTimes(b, c)
  {}

  lemma RunningKeepsInv<Q>(s: State<Q>, t: State<Q>, kind: Kind, todo: seq<Committed<Stored<Q>>>)
    requires Inv(s) && s.gate == Free && s.writer.WriterWaiting? && TakesGate(kind)
    requires t == s.(writer := Running(kind, todo), gate := HeldByWriter) && AllMirror(todo) && Clean(Last(s.db, todo))
    ensures Inv(t)
  {}

  lemma BeginKeepsInv<Q>(s: State<Q>)
    requires Inv(s) && Enabled(s, Begins)
    ensures Inv(Take(s, Begins))
  {
    var c := s.writer.command;
    HistoryEndsClean(s.db, c.ops);
    RunningKeepsInv(s, Take(s, Begins), c.kind, History(s.db, c.ops));
  }

  lemma CommitKeepsInv<Q>(s: State<Q>)
    requires Inv(s) && Enabled(s, Commit)
    ensures Inv(Take(s, Commit))
  {
    var t := Take(s, Commit);
    assert Last(t.db, t.writer.todo) == Last(s.db, s.writer.todo);
    assert AllMirror(t.writer.todo) by {
      assert forall i :: 0 <= i < |t.writer.todo| ==> t.writer.todo[i] == s.writer.todo[i + 1];
    }
    SavedStaysOk(s, t, t.db);
  }

  lemma LoginKeepsInv<Q>(s: State<Q>, username: Bytes, verified: bool, now: Bytes)
    requires Inv(s) && Enabled(s, LogsIn(username, verified, now))
    ensures Inv(Take(s, LogsIn(username, verified, now)))
  {
    var t := Take(s, LogsIn(username, verified, now));
    LoginIsUnhashed(s.db, username, verified, now);
    SavedStaysOk(s, t, t.db);
    if t.snapshotter.Exporting? {
      forall i | 0 <= i < |t.snapshotter.parts|
        ensures SameButTimes(t.db, t.snapshotter.parts[i])
      {
        SameButTimesTrans(s.db, t.db, s.snapshotter.parts[i]);
      }
    }
  }

  lemma ArrivesKeepsInv<Q>(s: State<Q>, c: Command<Q>)
    requires Inv(s) && Enabled(s, Arrives(c))
    ensures Inv(Take(s, Arrives(c)))
  {}

  lemma EndsKeepsInv<Q>(s: State<Q>)
    requires Inv(s) && Enabled(s, Ends)
    ensures Inv(Take(s, Ends))
  {}

  lemma SnapshotKeepsInv<Q>(s: State<Q>, step: Step<Q>)
    requires Inv(s) && Enabled(s, step) && (step.SnapshotArrives? || step.SnapshotBegins?)
    ensures Inv(Take(s, step))
  {}

  lemma ExportKeepsInv<Q>(s: State<Q>)
    requires Inv(s) && Enabled(s, ExportPart)
    ensures Inv(Take(s, ExportPart))
  {}

  lemma EndKeepsInv<Q>(s: State<Q>)
    requires Inv(s) && Enabled(s, SnapshotEnds)
    ensures Inv(Take(s, SnapshotEnds))
  {
    var last := |s.past| - 1;
    assert Clean(s.past[last]) && Meta(s.past[last]) == s.snapshotter.meta && PartsFrom(s.past[last], s.snapshotter.parts);
  }

  predicate OfSnapshotter<Q>(step: Step<Q>) {
    step.SnapshotArrives? || step.SnapshotBegins? || step.ExportPart? || step.SnapshotEnds?
  }

  lemma WriterKeepsInv<Q>(s: State<Q>, step: Step<Q>)
    requires Inv(s) && Enabled(s, step) && !OfSnapshotter(step)
    ensures Inv(Take(s, step))
  {
    match step
    case Arrives(c) => ArrivesKeepsInv(s, c);
    case Begins => BeginKeepsInv(s);
    case Ends => EndsKeepsInv(s);
    case Commit => CommitKeepsInv(s);
    case LogsIn(username, verified, now) => LoginKeepsInv(s, username, verified, now);
  }

  lemma SnapshotterKeepsInv<Q>(s: State<Q>, step: Step<Q>)
    requires Inv(s) && Enabled(s, step) && OfSnapshotter(step)
    ensures Inv(Take(s, step))
  {
    match step
    case SnapshotArrives => SnapshotKeepsInv(s, step);
    case SnapshotBegins => SnapshotKeepsInv(s, step);
    case ExportPart => ExportKeepsInv(s);
    case SnapshotEnds => EndKeepsInv(s);
  }

  lemma TakeKeepsInv<Q>(s: State<Q>, step: Step<Q>)
    requires Inv(s) && Enabled(s, step)
    ensures Inv(Take(s, step))
  {
    if OfSnapshotter(step) {
      SnapshotterKeepsInv(s, step);
    } else {
      WriterKeepsInv(s, step);
    }
  }

  lemma {:induction false} AfterKeepsInv<Q>(s: State<Q>, steps: seq<Step<Q>>)
    requires Inv(s) && Runs(s, steps)
    ensures Inv(After(s, steps))
    decreases |steps|
  {
    if steps != [] {
      TakeKeepsInv(s, steps[0]);
      AfterKeepsInv(Take(s, steps[0]), steps[1..]);
    }
  }

  /** In every interleaving of commands, logins and snapshots each snapshot is written, never refused
      because the catalog changed; but for the timestamps of users everything in it comes from a single
      state of the database, whose checksum is current though some committed states have a stale one, and
      which the metadata describes. */
  lemma SnapshotsAreConsistent<Q>(db: Db<Stored<Q>>, steps: seq<Step<Q>>, i: nat)
    requires Clean(db) && Mirrors(db) && Runs(Start(db), steps) && i < |After(Start(db), steps).saved|
    ensures var t := After(Start(db), steps);
            t.saved[i].Written? && OneState(t.past, t.saved[i].meta, t.saved[i].parts)
  {
    AfterKeepsInv(Start(db), steps);
  }

  /// The two timestamps do differ

  /** A login between two parts. */
  function LoginBetween<Q>(username: Bytes, now: Bytes): seq<Step<Q>> {
    [SnapshotArrives, SnapshotBegins, ExportPart, Arrives(Command(AuthenticateUser, [])), LogsIn(username, true, now),
     ExportPart, SnapshotEnds]
  }

  ghost predicate Leads<Q>(s: State<Q>, steps: seq<Step<Q>>, t: State<Q>) { Runs(s, steps) && After(s, steps) == t }

  lemma First<Q>(s: State<Q>, step: Step<Q>, rest: seq<Step<Q>>, t: State<Q>)
    requires Enabled(s, step) && Leads(Take(s, step), rest, t)
    ensures Leads(s, [step] + rest, t)
  {
    assert ([step] + rest)[1..] == rest;
  }

  lemma LoginShows<Q>(s: State<Q>, username: Bytes, now: Bytes) returns (t: State<Q>)
    requires s.writer.WriterIdle? && s.snapshotter == Exporting(Meta(s.db), [s.db]) && s.saved == []
    ensures Leads(s, [Arrives(Command(AuthenticateUser, [])), LogsIn(username, true, now), ExportPart, SnapshotEnds], t)
    ensures t.saved == [Written(Meta(s.db), [s.db, Login(s.db, username, true, now)])]
  {
    var authenticate: Command<Q> := Command(AuthenticateUser, []);
    var s4 := Take(s, Arrives(authenticate));
    var s5 := Take(s4, LogsIn(username, true, now));
    var s6 := Take(s5, ExportPart);
    t := Take(s6, SnapshotEnds);
    assert Meta(s6.db) == Meta(s.db) && s6.snapshotter.parts == [s.db, Login(s.db, username, true, now)];
    First(s6, SnapshotEnds, [], t);
    First(s5, ExportPart, [SnapshotEnds], t);
    First(s4, LogsIn(username, true, now), [ExportPart, SnapshotEnds], t);
    First(s, Arrives(authenticate), [LogsIn(username, true, now), ExportPart, SnapshotEnds], t);
  }

  /** In every state a login during an export is possible, and the snapshot is written with the timestamps
      from before it in one part and from after it in the next. */
  lemma LoginsShow<Q>(db: Db<Stored<Q>>, username: Bytes, now: Bytes)
    ensures Runs(Start(db), LoginBetween(username, now))
    ensures After(Start(db), LoginBetween(username, now)).saved == [Written(Meta(db), [db, Login(db, username, true, now)])]
  {
    var s1 := Take(Start(db), SnapshotArrives);
    var s2 := Take(s1, SnapshotBegins);
    var s3 := Take(s2, ExportPart);
    var rest := [Arrives(Command(AuthenticateUser, [])), LogsIn(username, true, now), ExportPart, SnapshotEnds];
    var t := LoginShows(s3, username, now);
    First(s2, ExportPart, rest, t);
    First(s1, SnapshotBegins, [ExportPart] + rest, t);
    First(Start(db), SnapshotArrives, [SnapshotBegins] + ([ExportPart] + rest), t);
    assert [SnapshotArrives] + ([SnapshotBegins] + ([ExportPart] + rest)) == LoginBetween(username, now);
  }

  /** What a successful login changes: exactly the two timestamps, in the rows with the account's id. */
  lemma LoginSets<Q>(db: Db<Stored<Q>>, username: Bytes, now: Bytes, i: nat, c: UserColumn)
    requires FindUser(db.physical.users, username).Some? && FindUser(db.physical.users, username).value.status == Ascii("active")
    requires i < |db.physical.users|
    ensures var u, users := FindUser(db.physical.users, username).value, Login(db, username, true, now).physical.users;
            && |users| == |db.physical.users|
            && CellOf(users[i], c) == if IsStamped(c) && db.physical.users[i].userId == u.userId then now else CellOf(db.physical.users[i], c)
  {
    StampSets(db.physical.users[i], now, c);
  }
}
