/** The bodies of catalog mutations, and every state they commit: src/catalog/mutation/. */
module CatalogMutations {
  import opened Text
  import opened CatalogChecksum
  import opened CatalogKernel
  import opened CatalogTables

  /// Bodies

  /** What a transaction does for one of the names in its statement: nothing under IF EXISTS or IF NOT
      EXISTS, an error, a journalled change that first takes ids of its own, a change without a journal
      row (vectors), or rows of a table (INSERT into an ordinary table). */
  datatype Part<P> =
    | Skipped
    | Refused
    | Journalled(ids: nat, mutationType: Bytes, target: int, request: Bytes, writes: seq<Action<P>>)
    | Counted(writes: seq<Action<P>>)
    | Data(physical: P)

  /** Statements between `insert_journal` and `finish_journal`; any of them may fail. */
  predicate Writes<P>(actions: seq<Action<P>>) {
    forall i :: 0 <= i < |actions| ==> !actions[i].Journal? && !actions[i].Finalize?
  }

  predicate PartOk<P>(part: Part<P>) { part.Journalled? || part.Counted? ==> Writes(part.writes) }

  predicate PartsOk<P>(parts: seq<Part<P>>) { forall i :: 0 <= i < |parts| ==> PartOk(parts[i]) }

  function Steps<P>(part: Part<P>): seq<Action<P>> {
    match part
    case Skipped => []
    case Refused => [Fail]
    case Journalled(ids, mutationType, target, request, writes) =>
      Allocs(ids) + ([Journal(mutationType, target, request)] + (writes + [Finalize]))
    case Counted(writes) => writes + [Rehash]
    case Data(physical) => [WritePhysical(physical)]
  }

  function Body<P>(parts: seq<Part<P>>): seq<Action<P>> {
    if parts == [] then [] else Steps(parts[0]) + Body(parts[1..])
  }

  lemma {:induction false} DisciplinedAppend<P>(a: seq<Action<P>>, b: seq<Action<P>>, open: bool, dirty: bool)
    requires Disciplined(a, open, dirty) && Disciplined(b, false, false)
    ensures Disciplined(a + b, open, dirty)
    decreases |a|
  {
    if a == [] {
      assert a + b == b;
    } else {
      assert (a + b)[1..] == a[1..] + b;
      if !a[0].Fail? {
        DisciplinedAppend(a[1..], b, OpenAfter(a[0], open), DirtyAfter(a[0], dirty));
      }
    }
  }

  /** Any writes, closed by the statement that finishes the journal row or recomputes the checksum. */
  lemma {:induction false} ClosedWrites<P>(writes: seq<Action<P>>, open: bool, dirty: bool)
    requires Writes(writes)
    ensures Disciplined(writes + [if open then Finalize else Rehash], open, dirty)
    decreases |writes|
  {
    var last: Action<P> := if open then Finalize else Rehash;
    if writes == [] {
      assert writes + [last] == [last];
      assert [last][1..] == [];
    } else {
      assert (writes + [last])[1..] == writes[1..] + [last];
      assert Writes(writes[1..]);
      ClosedWrites(writes[1..], open, DirtyAfter(writes[0], dirty));
    }
  }

  lemma {:induction false} AllocsFirst<P>(n: nat, rest: seq<Action<P>>, dirty: bool)
    requires Disciplined(rest, false, dirty || n > 0)
    ensures Disciplined(Allocs(n) + rest, false, dirty)
  {
    if n == 0 {
      assert Allocs(0) + rest == rest;
    } else {
      assert (Allocs(n) + rest)[1..] == Allocs(n - 1) + rest;
      AllocsFirst(n - 1, rest, true);
    }
  }

  lemma StepsAreDisciplined<P>(part: Part<P>)
    requires PartOk(part)
    ensures Disciplined(Steps(part), false, false)
  {
    match part
    case Journalled(ids, mutationType, target, request, writes) => {
      var rest := writes + [Finalize];
      ClosedWrites(writes, true, true);
      var j := [Journal(mutationType, target, request)] + rest;
      assert j[1..] == rest;
      AllocsFirst(ids, j, false);
    }
    case Counted(writes) => ClosedWrites(writes, false, false);
    case _ =>
  }

  /** CREATE, ALTER, DROP, GRANT and the vector writes, for any number of names, journal first, finish last
      and leave the checksum current. */
  lemma {:induction false} BodiesAreDisciplined<P>(parts: seq<Part<P>>)
    requires PartsOk(parts)
    ensures Disciplined(Body(parts), false, false)
  {
    if parts != [] {
      StepsAreDisciplined(parts[0]);
      assert forall i :: 0 <= i < |parts[1..]| ==> parts[1..][i] == parts[i + 1];
      BodiesAreDisciplined(parts[1..]);
      DisciplinedAppend(Steps(parts[0]), Body(parts[1..]), false, false);
    }
  }

  /// Statements

  /** What a statement comes to for one of its names, given the objects there are: nothing, an error, or new
      objects and how many ids they took. */
  datatype Outcome<P> = Skip | Refuse | Change(ids: nat, mutationType: Bytes, target: int, request: Bytes, physical: P)

  /** The loop over the names of a statement; `encode` gives the catalog rows of the objects. */
  function PartsOf<P, N>(encode: P -> OtherTables, step: (P, N) -> Outcome<P>, p: P, names: seq<N>): seq<Part<P>> {
    if names == [] then []
    else match step(p, names[0])
      case Skip => [Skipped] + PartsOf(encode, step, p, names[1..])
      case Refuse => [Refused]
      case Change(ids, mutationType, target, request, physical) =>
        [Journalled(ids, mutationType, target, request, [WriteCatalog(encode(physical)), WritePhysical(physical)])]
        + PartsOf(encode, step, physical, names[1..])
  }

  /** The objects after all names, unless one is refused. */
  function Fold<P, N>(step: (P, N) -> Outcome<P>, p: P, names: seq<N>): Option<P> {
    if names == [] then Some(p)
    else match step(p, names[0])
      case Skip => Fold(step, p, names[1..])
      case Refuse => None
      case Change(_, _, _, _, physical) => Fold(step, physical, names[1..])
  }

  lemma {:induction false} PartsOfAreOk<P, N>(encode: P -> OtherTables, step: (P, N) -> Outcome<P>, p: P, names: seq<N>)
    ensures PartsOk(PartsOf(encode, step, p, names))
  {
    if names != [] {
      match step(p, names[0])
      case Skip => PartsOfAreOk(encode, step, p, names[1..]);
      case Refuse =>
      case Change(_, _, _, _, physical) => PartsOfAreOk(encode, step, physical, names[1..]);
    }
  }

  lemma {:induction false} ExecAppend<P>(tx: Tx<P>, a: seq<Action<P>>, b: seq<Action<P>>)
    ensures Exec(tx, a + b) == match Exec(tx, a) case None => None case Some(next) => Exec(next, b)
    decreases |a|
  {
    if a == [] {
      assert a + b == b;
    } else {
      assert (a + b)[1..] == a[1..] + b;
      if Act(tx, a[0]).Some? {
        ExecAppend(Act(tx, a[0]).value, a[1..], b);
      }
    }
  }

  lemma NewIdIsFree(rows: seq<JournalRow>, id: int)
    requires forall i :: 0 <= i < |rows| ==> rows[i].id < id
    ensures IndexOf(rows, id).None?
  {}

  /** The statements of a change after its ids were taken. */
  lemma JournalAndWrite<P>(db: Db<P>, mutationType: Bytes, target: int, request: Bytes, others: OtherTables, physical: P)
    requires IndexOf(db.journal, db.nextOid).None?
    ensures var body := [Journal(mutationType, target, request)] + ([WriteCatalog(others), WritePhysical(physical)] + [Finalize]);
            var r := Exec(Tx(db, None), body);
            r.Some? && r.value.open == None && r.value.db.others == others && r.value.db.physical == physical
  {
    var inserted := Insert(db, mutationType, target, request);
    var tx := Tx(inserted.(others := others, physical := physical), Some(db.nextOid));
    var finish: seq<Action<P>> := [Finalize];
    var write, writes := WritePhysical(physical), [WriteCatalog(others), WritePhysical(physical)] + finish;
    assert inserted.journal[..|db.journal|] == db.journal;
    assert IndexOf(inserted.journal, db.nextOid) == Some(|db.journal|);
    assert finish[1..] == [];
    assert Exec(tx, finish) == Some(Tx(Finish(tx.db, |db.journal|), None));
    assert writes[1..] == [write] + finish && ([write] + finish)[1..] == finish;
    assert Exec(Tx(inserted, tx.open), writes) == Exec(tx, finish);
    assert ([Journal(mutationType, target, request)] + writes)[1..] == writes;
  }

  lemma TakeIds<P>(db: Db<P>, part: Part<P>)
    requires part.Journalled?
    ensures Exec(Tx(db, None), Steps(part))
         == Exec(Tx(db.(nextOid := db.nextOid + part.ids), None),
                 [Journal(part.mutationType, part.target, part.request)] + (part.writes + [Finalize]))
  {
    ExecAllocates(Tx(db, None), Steps(part), part.ids);
    assert Steps(part)[part.ids..] == [Journal(part.mutationType, part.target, part.request)] + (part.writes + [Finalize]);
  }

  lemma ChangeEnds<P>(db: Db<P>, part: Part<P>)
    requires Clean(db) && PartOk(part) && Exec(Tx(db, None), Steps(part)).Some?
    ensures Clean(Exec(Tx(db, None), Steps(part)).value.db)
  {
    StepsAreDisciplined(part);
    ExecKeepsRunning(Tx(db, None), Steps(part), false, false);
  }

  lemma ChangeRuns<P>(db: Db<P>, part: Part<P>, others: OtherTables, physical: P)
    requires Clean(db) && part.Journalled? && part.writes == [WriteCatalog(others), WritePhysical(physical)]
    ensures var r := Exec(Tx(db, None), Steps(part));
            r.Some? && r.value.open == None && r.value.db.others == others && r.value.db.physical == physical && Clean(r.value.db)
  {
    var taken := db.(nextOid := db.nextOid + part.ids);
    TakeIds(db, part);
    NewIdIsFree(taken.journal, taken.nextOid);
    JournalAndWrite(taken, part.mutationType, part.target, part.request, others, physical);
    ChangeEnds(db, part);
  }

  /** The catalog rows are those of the objects. */
  predicate Encoded<P>(encode: P -> OtherTables, db: Db<P>) { db.others == encode(db.physical) }

  ghost predicate Ran<P>(encode: P -> OtherTables, r: Option<Tx<P>>, p: Option<P>) {
    if p.None? then r.None? else r.Some? && r.value.open == None && r.value.db.physical == p.value && Encoded(encode, r.value.db)
  }

  lemma {:induction false} NamesRun<P, N>(encode: P -> OtherTables, step: (P, N) -> Outcome<P>, db: Db<P>, names: seq<N>)
    requires Clean(db) && Encoded(encode, db)
    ensures Ran(encode, Exec(Tx(db, None), Body(PartsOf(encode, step, db.physical, names))), Fold(step, db.physical, names))
    decreases |names|
  {
    if names != [] {
      var outcome, rest := step(db.physical, names[0]), names[1..];
      match outcome
      case Skip => {
        BodyCons(Skipped, PartsOf(encode, step, db.physical, rest));
        NamesRun(encode, step, db, rest);
      }
      case Refuse => BodyCons<P>(Refused, []);
      case Change(ids, mutationType, target, request, physical) => {
        var part := Journalled(ids, mutationType, target, request, [WriteCatalog(encode(physical)), WritePhysical(physical)]);
        BodyCons(part, PartsOf(encode, step, physical, rest));
        ChangeRuns(db, part, encode(physical), physical);
        var next := Exec(Tx(db, None), Steps(part)).value;
        NamesRun(encode, step, next.db, rest);
        ExecAppend(Tx(db, None), Steps(part), Body(PartsOf(encode, step, physical, rest)));
      }
    }
  }

  lemma BodyCons<P>(part: Part<P>, rest: seq<Part<P>>)
    ensures Body([part] + rest) == Steps(part) + Body(rest)
    ensures part.Skipped? ==> Body([part] + rest) == Body(rest)
    ensures part.Refused? && rest == [] ==> Body([part] + rest) == [Fail]
  {
    assert ([part] + rest)[1..] == rest;
  }

  /** A statement over any number of names is all or nothing: it leaves the objects its loop comes to, or if
      one name is refused those from before, with their catalog rows and a clean catalog either way. */
  lemma StatementIsAllOrNothing<P, N>(encode: P -> OtherTables, step: (P, N) -> Outcome<P>, db: Db<P>, names: seq<N>)
    requires Clean(db) && Encoded(encode, db)
    ensures var db1 := Transact(db, Body(PartsOf(encode, step, db.physical, names)));
            var p := Fold(step, db.physical, names);
            db1.physical == (if p.Some? then p.value else db.physical) && Encoded(encode, db1) && Clean(db1)
  {
    NamesRun(encode, step, db, names);
    PartsOfAreOk(encode, step, db.physical, names);
    BodiesAreDisciplined(PartsOf(encode, step, db.physical, names));
    TransactKeepsClean(db, Body(PartsOf(encode, step, db.physical, names)));
  }

  /// The status of a vector index

  function StatusText(status: BuildStatus): (r: Bytes) {
    match status
    case Pending => Ascii("pending")
    case Building => Ascii("building")
    case ActiveIndex => Ascii("active")
    case Rebuilding => Ascii("rebuilding")
    case Compacting => Ascii("compacting")
    case Stale => Ascii("stale")
    case Failed => Ascii("failed")
    case UnavailableIndex => Ascii("unavailable")
    case UnknownStatus => Ascii("unknown")
  }

  function StatusFrom(text: Bytes): BuildStatus {
    if text == StatusText(BuildStatus.Pending) then BuildStatus.Pending
    else if text == StatusText(Building) then Building
    else if text == StatusText(ActiveIndex) then ActiveIndex
    else if text == StatusText(Rebuilding) then Rebuilding
    else if text == StatusText(Compacting) then Compacting
    else if text == StatusText(Stale) then Stale
    else if text == StatusText(BuildStatus.Failed) then BuildStatus.Failed
    else if text == StatusText(UnavailableIndex) then UnavailableIndex
    else UnknownStatus
  }

  lemma StatusIsReadBack(status: BuildStatus)
    requires status != UnknownStatus
    ensures StatusFrom(StatusText(status)) == status
  {
    StatusTextsDiffer(status);
  }

  /** The eight texts differ in their first letter or their length. */
  lemma StatusTextsDiffer(a: BuildStatus)
    ensures forall b :: a != b && a != UnknownStatus && b != UnknownStatus ==> StatusText(a) != StatusText(b)
  {
    forall b | a != b && a != UnknownStatus && b != UnknownStatus
      ensures StatusText(a) != StatusText(b)
    {
      assert StatusText(a)[0] != StatusText(b)[0] || |StatusText(a)| != |StatusText(b)|;
    }
  }

  /** `vector_index_transition_allowed` */
  predicate TransitionAllowed(current: BuildStatus, next: BuildStatus) {
    match current
    case Pending => next == Building || next == BuildStatus.Failed || next == UnavailableIndex
    case Building => next == ActiveIndex || next == BuildStatus.Failed || next == UnavailableIndex
    case ActiveIndex => next == Rebuilding || next == Compacting || next == Stale || next == UnavailableIndex
    case Rebuilding => next == ActiveIndex || next == BuildStatus.Failed || next == UnavailableIndex
    case Compacting => next == ActiveIndex || next == BuildStatus.Failed || next == UnavailableIndex
    case Stale => next == Rebuilding || next == UnavailableIndex
    case Failed => next == Rebuilding || next == UnavailableIndex
    case UnavailableIndex => next == Rebuilding
    case UnknownStatus => false
  }

  /** Where rs_vector_index is among the uninterpreted tables, and three of its columns. */
  const VECTORS := 7
  const INDEX_ID := 0
  const BUILD_STATUS := 13
  const ERROR_MESSAGE := 15

  function VectorRows<P>(db: Db<P>): (t: Table)
    ensures forall i :: 0 <= i < |t| ==> |t[i]| == 16
  {
    assert OTHER_QUERIES[VECTORS].columns == 16;
    db.others[VECTORS]
  }

  predicate IsRow(row: Row, index: int) { |row| == 16 && row[INDEX_ID] == Cell(index) }

  function WithStatus(row: Row, index: int, status: BuildStatus, error: Bytes): (r: Row)
    ensures |r| == |row|
  {
    if IsRow(row, index) then row[BUILD_STATUS := StatusText(status)][ERROR_MESSAGE := error] else row
  }

  function WithStatuses(rows: Table, index: int, status: BuildStatus, error: Bytes): (r: Table)
    ensures |r| == |rows| && forall i :: 0 <= i < |r| ==> r[i] == WithStatus(rows[i], index, status, error)
  {
    seq(|rows|, i requires 0 <= i < |rows| => WithStatus(rows[i], index, status, error))
  }

  /** `UPDATE rs_vector_index SET build_status, error_message`; the time of the update is not hashed. */
  function SetStatus<P>(db: Db<P>, index: int, status: BuildStatus, error: Bytes): Db<P> {
    ReplaceKeepsShape(db.others, VECTORS, WithStatuses(VectorRows(db), index, status, error));
    db.(others := db.others[VECTORS := WithStatuses(VectorRows(db), index, status, error)])
  }

  lemma ReplaceKeepsShape(others: OtherTables, k: nat, rows: Table)
    requires k < |OTHER_QUERIES| && forall i :: 0 <= i < |rows| ==> |rows[i]| == OTHER_QUERIES[k].columns
    ensures Shaped(OTHER_QUERIES, others[k := rows])
  {}

  function StatusOf(rows: Table, index: int): Option<BuildStatus> {
    if rows == [] then None
    else if IsRow(rows[0], index) then Some(StatusFrom(rows[0][BUILD_STATUS]))
    else StatusOf(rows[1..], index)
  }

  /// Committed states

  /** A state that was committed. `halfway` marks the first of the two commits of a status change, before
      the checksum is taken anew. */
  datatype Committed<P> = Committed(db: Db<P>, halfway: bool)

  /** `transition_vector_index_status` outside a transaction: nothing, or one commit for the row and one
      for the checksum. */
  function Transition<P>(db: Db<P>, index: int, next: BuildStatus, error: Bytes): (r: seq<Committed<P>>)
    ensures |r| == 0 || |r| == 2
  {
    var current := StatusOf(VectorRows(db), index);
    if current.None? || !TransitionAllowed(current.value, next) then []
    else [Committed(SetStatus(db, index, next, error), true), Committed(Refresh(SetStatus(db, index, next, error)), false)]
  }

  function Last<P>(db: Db<P>, commits: seq<Committed<P>>): Db<P> {
    if commits == [] then db else commits[|commits| - 1].db
  }

  /** `error` is what to record if the operation fails. */
  datatype Operation<P> =
    | Mutate(parts: seq<Part<P>>)
    | Rebuild(index: int, parts: seq<Part<P>>, error: Bytes)
    | Compact(index: int, ok: bool, error: Bytes)

  predicate OperationOk<P>(op: Operation<P>) { op.Compact? || PartsOk(op.parts) }

  /** Two status changes; without the first there is no second. */
  function TwoChanges<P>(db: Db<P>, index: int, next: BuildStatus, text: Bytes, after: BuildStatus, error: Bytes): seq<Committed<P>> {
    var first := Transition(db, index, next, text);
    if first == [] then [] else first + Transition(Last(db, first), index, after, error)
  }

  /** `compact_vector_index` */
  function Compaction<P>(db: Db<P>, index: int, ok: bool, error: Bytes): seq<Committed<P>> {
    if StatusOf(VectorRows(db), index) != Some(ActiveIndex) then []
    else TwoChanges(db, index, Compacting, [], if ok then ActiveIndex else BuildStatus.Failed, if ok then [] else error)
  }

  /** The states one operation commits, in order. A rebuild first marks the index, and marks it failed when
      its transaction fails; a compaction has no transaction at all. */
  function Commits<P>(db: Db<P>, op: Operation<P>): seq<Committed<P>> {
    match op
    case Mutate(parts) => [Committed(Transact(db, Body(parts)), false)]
    case Rebuild(index, parts, error) =>
      var first := Transition(db, index, Rebuilding, []);
      var marked := Last(db, first);
      if first == [] then []
      else if Exec(Tx(marked, None), Body(parts)).Some? then first + [Committed(Transact(marked, Body(parts)), false)]
      else first + Transition(marked, index, BuildStatus.Failed, error)
    case Compact(index, ok, error) => Compaction(db, index, ok, error)
  }

  /** The states a list of operations commits. */
  function History<P>(db: Db<P>, ops: seq<Operation<P>>): seq<Committed<P>>
    decreases |ops|
  {
    if ops == [] then []
    else Commits(db, ops[0]) + History(Last(db, Commits(db, ops[0])), ops[1..])
  }

  /// What every committed state has

  /** A status change, seen halfway: only the status and error of one index differ from the clean state
      before, so the checksum is stale unless both hash alike. */
  ghost predicate Halfway<P>(before: Db<P>, db: Db<P>) {
    && Clean(before) && JournalOk(db)
    && (db.stored == Recomputed(db) <==> Recomputed(before) == Recomputed(db))
    && Tables(before) != Tables(db) && Stream(Tables(before)) != Stream(Tables(db))
    && exists index, status, error :: db == SetStatus(before, index, status, error)
  }

  ghost predicate Follows<P>(before: Db<P>, next: Committed<P>) {
    if next.halfway then Halfway(before, next.db) else Clean(next.db)
  }

  ghost function Following<P>(): (Db<P>, Committed<P>) -> bool { (before, next) => Follows(before, next) }

  /** Every committed state against the one before it. */
  ghost predicate Chain<P>(follows: (Db<P>, Committed<P>) -> bool, db: Db<P>, commits: seq<Committed<P>>)
    decreases |commits|
  {
    commits == [] || (follows(db, commits[0]) && Chain(follows, commits[0].db, commits[1..]))
  }

  lemma {:induction false} ChainAppend<P>(follows: (Db<P>, Committed<P>) -> bool, db: Db<P>, a: seq<Committed<P>>, b: seq<Committed<P>>)
    requires Chain(follows, db, a) && Chain(follows, Last(db, a), b)
    ensures Chain(follows, db, a + b) && Last(db, a + b) == Last(Last(db, a), b)
    decreases |a|
  {
    if a == [] {
      assert a + b == b;
    } else {
      assert (a + b)[1..] == a[1..] + b;
      ChainAppend(follows, a[0].db, a[1..], b);
    }
  }

  lemma {:induction false} ChainAt<P>(follows: (Db<P>, Committed<P>) -> bool, db: Db<P>, commits: seq<Committed<P>>, i: nat)
    requires Chain(follows, db, commits) && i < |commits|
    ensures follows(if i == 0 then db else commits[i - 1].db, commits[i])
    decreases i
  {
    if i > 0 {
      ChainAt(follows, commits[0].db, commits[1..], i - 1);
      assert commits[1..][i - 1] == commits[i];
      assert i > 1 ==> commits[1..][i - 2] == commits[i - 1];
    }
  }

  /** No state of the history is out of place, and the last is clean. */
  ghost predicate HistoryOk<P>(db: Db<P>, commits: seq<Committed<P>>) {
    Chain(Following(), db, commits) && Clean(Last(db, commits))
  }

  lemma {:induction false} StatusIsInRow(rows: Table, index: int) returns (i: nat)
    requires StatusOf(rows, index).Some?
    ensures i < |rows| && IsRow(rows[i], index) && StatusFrom(rows[i][BUILD_STATUS]) == StatusOf(rows, index).value
  {
    if IsRow(rows[0], index) {
      i := 0;
    } else {
      var j := StatusIsInRow(rows[1..], index);
      i := j + 1;
    }
  }

  lemma SetStatusChanges<P>(db: Db<P>, index: int, next: BuildStatus, error: Bytes)
    requires StatusOf(VectorRows(db), index).Some? && StatusOf(VectorRows(db), index).value != next && next != UnknownStatus
    ensures Tables(db) != Tables(SetStatus(db, index, next, error))
  {
    var rows, t := VectorRows(db), SetStatus(db, index, next, error);
    var i := StatusIsInRow(rows, index);
    StatusIsReadBack(next);
    assert VectorRows(t)[i] == WithStatus(rows[i], index, next, error);
    assert VectorRows(t)[i][BUILD_STATUS] != rows[i][BUILD_STATUS];
    assert Tables(db)[3 + VECTORS] == rows && Tables(t)[3 + VECTORS] == VectorRows(t);
  }

  lemma SetStatusKeepsJournal<P>(db: Db<P>, index: int, status: BuildStatus, error: Bytes)
    requires JournalOk(db)
    ensures JournalOk(SetStatus(db, index, status, error)) && SetStatus(db, index, status, error).stored == db.stored
  {}

  lemma RefreshIsClean<P>(db: Db<P>)
    requires JournalOk(db)
    ensures Clean(Refresh(db))
  {
    assert Tables(Refresh(db)) == Tables(db);
  }

  lemma HalfwayIs<P>(db: Db<P>, index: int, next: BuildStatus, error: Bytes)
    requires Clean(db) && Transition(db, index, next, error) != []
    ensures Halfway(db, SetStatus(db, index, next, error))
  {
    StatusShowsInStream(db, index, next, error);
    SetStatusKeepsJournal(db, index, next, error);
    StaleIffHashDiffers(db, SetStatus(db, index, next, error));
  }

  lemma StatusShowsInStream<P>(db: Db<P>, index: int, next: BuildStatus, error: Bytes)
    requires Transition(db, index, next, error) != []
    ensures var half := SetStatus(db, index, next, error);
            Tables(db) != Tables(half) && Stream(Tables(db)) != Stream(Tables(half))
  {
    SetStatusChanges(db, index, next, error);
    StreamDeterminesCatalog(Tables(db), Tables(SetStatus(db, index, next, error)));
  }

  lemma StaleIffHashDiffers<P>(before: Db<P>, db: Db<P>)
    requires Clean(before) && db.stored == before.stored
    ensures db.stored == Recomputed(db) <==> Recomputed(before) == Recomputed(db)
  {}

  lemma RefreshedIsClean<P>(db: Db<P>, index: int, next: BuildStatus, error: Bytes)
    requires Clean(db)
    ensures Clean(Refresh(SetStatus(db, index, next, error)))
  {
    SetStatusKeepsJournal(db, index, next, error);
    RefreshIsClean(SetStatus(db, index, next, error));
  }

  lemma TwoCommits<P>(db: Db<P>, first: Committed<P>, second: Committed<P>)
    requires Follows(db, first) && Clean(second.db) && !second.halfway
    ensures HistoryOk(db, [first, second]) && Last(db, [first, second]) == second.db
  {
    assert [first, second][1..] == [second];
    assert [second][1..] == [];
  }

  lemma OneCommit<P>(db: Db<P>, only: Committed<P>)
    requires Clean(only.db) && !only.halfway
    ensures HistoryOk(db, [only])
  {
    assert [only][1..] == [];
  }

  lemma TransitionIsOk<P>(db: Db<P>, index: int, next: BuildStatus, error: Bytes)
    requires Clean(db)
    ensures HistoryOk(db, Transition(db, index, next, error))
  {
    if Transition(db, index, next, error) != [] {
      var half := SetStatus(db, index, next, error);
      HalfwayIs(db, index, next, error);
      RefreshedIsClean(db, index, next, error);
      TwoCommits(db, Committed(half, true), Committed(Refresh(half), false));
    }
  }

  lemma HistoryAppend<P>(db: Db<P>, a: seq<Committed<P>>, b: seq<Committed<P>>)
    requires HistoryOk(db, a) && HistoryOk(Last(db, a), b)
    ensures HistoryOk(db, a + b)
  {
    ChainAppend(Following(), db, a, b);
  }

  lemma MutateIsOk<P>(db: Db<P>, parts: seq<Part<P>>)
    requires Clean(db) && PartsOk(parts)
    ensures HistoryOk(db, [Committed(Transact(db, Body(parts)), false)])
  {
    BodiesAreDisciplined(parts);
    TransactKeepsClean(db, Body(parts));
    OneCommit(db, Committed(Transact(db, Body(parts)), false));
  }

  lemma RebuildIsOk<P>(db: Db<P>, index: int, parts: seq<Part<P>>, error: Bytes)
    requires Clean(db) && PartsOk(parts)
    ensures HistoryOk(db, Commits(db, Rebuild(index, parts, error)))
  {
    var first := Transition(db, index, Rebuilding, []);
    var marked := Last(db, first);
    TransitionIsOk(db, index, Rebuilding, []);
    if Exec(Tx(marked, None), Body(parts)).Some? {
      MutateIsOk(marked, parts);
      HistoryAppend(db, first, [Committed(Transact(marked, Body(parts)), false)]);
    } else {
      TransitionIsOk(marked, index, BuildStatus.Failed, error);
      HistoryAppend(db, first, Transition(marked, index, BuildStatus.Failed, error));
    }
  }

  lemma TwoChangesAreOk<P>(db: Db<P>, index: int, next: BuildStatus, text: Bytes, after: BuildStatus, error: Bytes)
    requires Clean(db)
    ensures HistoryOk(db, TwoChanges(db, index, next, text, after, error))
  {
    var first := Transition(db, index, next, text);
    TransitionIsOk(db, index, next, text);
    TransitionIsOk(Last(db, first), index, after, error);
    HistoryAppend(db, first, Transition(Last(db, first), index, after, error));
  }

  lemma CompactIsOk<P>(db: Db<P>, index: int, ok: bool, error: Bytes)
    requires Clean(db)
    ensures HistoryOk(db, Compaction(db, index, ok, error))
  {
    if Compaction(db, index, ok, error) != [] {
      TwoChangesAreOk(db, index, Compacting, [], if ok then ActiveIndex else BuildStatus.Failed, if ok then [] else error);
    }
  }

  /** From a clean state every operation, whatever fails in it, commits states whose journal is in order,
      ends with a current checksum, and has a stale one at most halfway through a status change. */
  lemma CommitsAreOk<P>(db: Db<P>, op: Operation<P>)
    requires Clean(db) && OperationOk(op)
    ensures HistoryOk(db, Commits(db, op))
  {
    match op
    case Mutate(parts) => MutateIsOk(db, parts);
    case Rebuild(index, parts, error) => RebuildIsOk(db, index, parts, error);
    case Compact(index, ok, error) => CompactIsOk(db, index, ok, error);
  }

  ghost predicate AllOk<P>(ops: seq<Operation<P>>) { forall i :: 0 <= i < |ops| ==> OperationOk(ops[i]) }

  lemma {:induction false} HistoryIsOk<P>(db: Db<P>, ops: seq<Operation<P>>)
    requires Clean(db) && AllOk(ops)
    ensures HistoryOk(db, History(db, ops))
    decreases |ops|
  {
    if ops != [] {
      CommitsAreOk(db, ops[0]);
      assert forall i :: 0 <= i < |ops[1..]| ==> ops[1..][i] == ops[i + 1];
      HistoryIsOk(Last(db, Commits(db, ops[0])), ops[1..]);
      HistoryAppend(db, Commits(db, ops[0]), History(Last(db, Commits(db, ops[0])), ops[1..]));
    }
  }

  lemma HistoryEndsClean<P>(db: Db<P>, ops: seq<Operation<P>>)
    requires Clean(db) && AllOk(ops)
    ensures Clean(Last(db, History(db, ops)))
  {
    HistoryIsOk(db, ops);
  }

  /** What a committed state of a history is, given the one before it. */
  lemma CommittedStateIs<P>(start: Db<P>, ops: seq<Operation<P>>, i: nat)
    requires Clean(start) && AllOk(ops) && i < |History(start, ops)|
    ensures var (commits, at) := (History(start, ops), History(start, ops)[i]);
            var before := if i == 0 then start else commits[i - 1].db;
            && JournalOk(at.db)
            && (at.db.stored != Recomputed(at.db) <==> at.halfway && Recomputed(before) != Recomputed(at.db))
            && (at.halfway ==> Stream(Tables(before)) != Stream(Tables(at.db)))
  {
    HistoryIsOk(start, ops);
    ChainAt(Following(), start, History(start, ops), i);
  }

  /** Over any run of mutations, rebuilds and compactions from bootstrap, whichever of them fail, every
      committed state has no pending journal row and its applied rows carry the epochs 1, 2, ...,
      catalog_epoch; its stored checksum is stale exactly halfway through a status change that alters
      the hash, and such a change always alters the hashed bytes. */
  lemma StaleExactlyHalfway<P>(others: OtherTables, physical: P, ops: seq<Operation<P>>, i: nat)
    requires AllOk(ops) && Bootstrap(others, physical).Some? && i < |History(Bootstrap(others, physical).value, ops)|
    ensures var start := Bootstrap(others, physical).value;
            var (commits, at) := (History(start, ops), History(start, ops)[i]);
            var before := if i == 0 then start else commits[i - 1].db;
            && JournalOk(at.db)
            && (at.db.stored != Recomputed(at.db) <==> at.halfway && Recomputed(before) != Recomputed(at.db))
            && (at.halfway ==> Stream(Tables(before)) != Stream(Tables(at.db)))
  {
    BootstrapIsClean(others, physical);
    CommittedStateIs(Bootstrap(others, physical).value, ops, i);
  }
}
