/** Catalog transactions: the OID allocator, the mutation journal, the epoch and the stored checksum. */
module CatalogKernel {
  import opened Text
  import opened Oids
  import opened CatalogChecksum

  const CATALOG_VERSION := 2
  const SNAPSHOT_FORMAT_VERSION := 3

  /// Catalog state

  datatype Status = Pending | Applied | Failed

  datatype JournalRow = JournalRow(
    id: int, epoch: int, mutationType: Bytes, target: int, request: Bytes, status: Status, error: Bytes)

  const OTHER_QUERIES := QUERIES[3..]

  /** The sixteen hashed tables this module does not interpret, as checksum cells. */
  type OtherTables = t: seq<Table> | Shaped(OTHER_QUERIES, t) ghost witness seq(16, _ => [])

  /** `others` holds the hashed tables this module does not interpret, as checksum cells;
      `physical` stands for DuckDB's own objects and rows, and `stored` for the checksum column. */
  datatype Db<P> = Db(nextOid: int, epoch: int, stored: string, journal: seq<JournalRow>, others: OtherTables, physical: P)

  function Cell(i: int): Bytes {
    if i < 0 then Ascii("-") + LengthDigits(-i) else LengthDigits(i)
  }

  function LengthDigits(n: nat): Bytes {
    DecIsAscii(n);
    Ascii(Dec(n))
  }

  function StatusCell(s: Status): Bytes {
    match s
    case Pending => Ascii("pending")
    case Applied => Ascii("applied")
    case Failed => Ascii("failed")
  }

  function JournalCells(r: JournalRow): (cells: Row)
    ensures |cells| == 7
  {
    [Cell(r.id), Cell(r.epoch), r.mutationType, Cell(r.target), r.request, StatusCell(r.status), r.error]
  }

  function JournalTable(rows: seq<JournalRow>): (t: Table)
    ensures |t| == |rows| && forall i :: 0 <= i < |t| ==> |t[i]| == 7
  {
    seq(|rows|, i requires 0 <= i < |rows| => JournalCells(rows[i]))
  }

  /** The rows the checksum queries return, in query order. */
  function Tables<P>(db: Db<P>): (t: seq<Table>)
    ensures Shaped(QUERIES, t)
  {
    var own: seq<Table> := [
      [[Cell(1), Cell(CATALOG_VERSION), Cell(SNAPSHOT_FORMAT_VERSION), Cell(db.epoch), Ascii("ready")]],
      [[Cell(1), Cell(db.nextOid)]],
      JournalTable(db.journal)];
    OwnTablesAreShaped(own, db.others);
    own + db.others
  }

  lemma OwnTablesAreShaped(own: seq<Table>, others: OtherTables)
    requires |own| == 3
    requires forall r :: 0 <= r < |own[0]| ==> |own[0][r]| == 5
    requires forall r :: 0 <= r < |own[1]| ==> |own[1][r]| == 2
    requires forall r :: 0 <= r < |own[2]| ==> |own[2][r]| == 7
    ensures Shaped(QUERIES, own + others)
  {
    var t := own + others;
    forall i, r | 0 <= i < |QUERIES| && 0 <= r < |t[i]|
      ensures |t[i][r]| == QUERIES[i].columns
    {
      if i >= 3 {
        assert t[i] == others[i - 3] && QUERIES[i] == OTHER_QUERIES[i - 3];
      }
    }
  }

  function Recomputed<P>(db: Db<P>): string { Checksum(Tables(db)) }

  /// Transactions

  /** One statement a mutation body issues. */
  datatype Action<P> =
    | Alloc
    | Journal(mutationType: Bytes, target: int, request: Bytes)
    | WriteCatalog(others: OtherTables)
    | WritePhysical(physical: P)
    | Finalize
    | Rehash
    | Fail

  /** The tables, and the id `insert_journal` returned to the running body. */
  datatype Tx<P> = Tx(db: Db<P>, open: Option<int>)

  function IndexOf(rows: seq<JournalRow>, id: int): (r: Option<nat>)
    ensures r.Some? ==> r.value < |rows| && rows[r.value].id == id
    ensures r.None? ==> forall i :: 0 <= i < |rows| ==> rows[i].id != id
  {
    if rows == [] then None
    else if rows[|rows| - 1].id == id then Some(|rows| - 1)
    else IndexOf(rows[..|rows| - 1], id)
  }

  function Refresh<P>(db: Db<P>): Db<P> { db.(stored := Recomputed(db)) }

  /** `insert_journal`: a pending row for the next epoch, its id taken from the allocator. */
  function Insert<P>(db: Db<P>, mutationType: Bytes, target: int, request: Bytes): Db<P> {
    var row := JournalRow(db.nextOid, db.epoch + 1, mutationType, target, request, Pending, []);
    db.(nextOid := db.nextOid + 1, journal := db.journal + [row])
  }

  /** `finish_journal`: the row becomes applied, the epoch advances, the checksum is recomputed. */
  function Finish<P>(db: Db<P>, i: nat): Db<P>
    requires i < |db.journal|
  {
    Refresh(db.(journal := db.journal[i := db.journal[i].(status := Applied)], epoch := db.epoch + 1))
  }

  /** The effect of one statement; `None` when it fails. */
  function Act<P>(tx: Tx<P>, a: Action<P>): Option<Tx<P>> {
    var db := tx.db;
    match a
    case Alloc => Some(tx.(db := db.(nextOid := db.nextOid + 1)))
    case Journal(mutationType, target, request) =>
      if IndexOf(db.journal, db.nextOid).Some? then None
      else Some(Tx(Insert(db, mutationType, target, request), Some(db.nextOid)))
    case WriteCatalog(others) => Some(tx.(db := db.(others := others)))
    case WritePhysical(physical) => Some(tx.(db := db.(physical := physical)))
    case Finalize =>
      var i := if tx.open.None? then None else IndexOf(db.journal, tx.open.value);
      if i.None? then None else Some(Tx(Finish(db, i.value), None))
    case Rehash => Some(tx.(db := Refresh(db)))
    case Fail => None
  }

  function Exec<P>(tx: Tx<P>, body: seq<Action<P>>): Option<Tx<P>>
    decreases |body|
  {
    if body == [] then Some(tx)
    else match Act(tx, body[0])
      case None => None
      case Some(next) => Exec(next, body[1..])
  }

  /** The state a transaction leaves: the body's when every statement succeeds, else the one before it. */
  function Transact<P>(db: Db<P>, body: seq<Action<P>>): Db<P> {
    match Exec(Tx(db, None), body)
    case None => db
    case Some(tx) => tx.db
  }

  function TransactAll<P>(db: Db<P>, bodies: seq<seq<Action<P>>>): Db<P>
    decreases |bodies|
  {
    if bodies == [] then db else TransactAll(Transact(db, bodies[0]), bodies[1..])
  }

  /// The discipline mutation bodies follow

  /** Whether a journal row is open after a statement. */
  predicate OpenAfter<P>(a: Action<P>, open: bool) { a.Journal? || (open && !a.Finalize?) }

  /** Whether hashed tables may differ from the stored checksum after a statement. */
  predicate DirtyAfter<P>(a: Action<P>, dirty: bool) {
    a.Alloc? || a.Journal? || a.WriteCatalog? || (dirty && !a.Finalize? && !a.Rehash?)
  }

  /** Up to where it fails, journal rows open and close in turn, and hashed tables are not left changed
      after the last finish or refresh; `open` and `dirty` describe the state the body starts in. */
  predicate Disciplined<P>(body: seq<Action<P>>, open: bool, dirty: bool)
    decreases |body|
  {
    if body == [] then !open && !dirty
    else if body[0].Fail? then true
    else
      && (body[0].Journal? ==> !open)
      && (body[0].Finalize? ==> open)
      && Disciplined(body[1..], OpenAfter(body[0], open), DirtyAfter(body[0], dirty))
  }

  /// Invariants

  function AppliedEpochs(rows: seq<JournalRow>): seq<int> {
    if rows == [] then []
    else
      var r := rows[|rows| - 1];
      AppliedEpochs(rows[..|rows| - 1]) + (if r.status == Applied then [r.epoch] else [])
  }

  predicate CountsTo(s: seq<int>, n: int) {
    |s| == n && forall i :: 0 <= i < |s| ==> s[i] == i + 1
  }

  predicate Ordered<P>(db: Db<P>) {
    && (forall i, j :: 0 <= i < j < |db.journal| ==> db.journal[i].id < db.journal[j].id)
    && (forall i :: 0 <= i < |db.journal| ==> db.journal[i].id < db.nextOid)
  }

  /** What every committed state satisfies. */
  predicate JournalOk<P>(db: Db<P>) {
    && Ordered(db)
    && (forall i :: 0 <= i < |db.journal| ==> db.journal[i].status != Pending)
    && CountsTo(AppliedEpochs(db.journal), db.epoch)
  }

  /** What every mutation leaves: a journal in order and a checksum that is current. */
  predicate Clean<P>(db: Db<P>) { JournalOk(db) && db.stored == Recomputed(db) }

  /** What holds between the statements of a body. */
  predicate Running<P>(tx: Tx<P>, open: bool, dirty: bool) {
    var db, n := tx.db, |tx.db.journal|;
    && Ordered(db)
    && (open <==> tx.open.Some?)
    && (forall i :: 0 <= i < n - (if open then 1 else 0) ==> db.journal[i].status != Pending)
    && (open ==> n > 0 && db.journal[n - 1].id == tx.open.value && db.journal[n - 1].status == Pending
                 && db.journal[n - 1].epoch == db.epoch + 1)
    && CountsTo(AppliedEpochs(db.journal), db.epoch)
    && (!dirty ==> db.stored == Recomputed(db))
  }

  lemma AppendPending(rows: seq<JournalRow>, r: JournalRow)
    ensures AppliedEpochs(rows + [r]) == AppliedEpochs(rows) + (if r.status == Applied then [r.epoch] else [])
  {
    assert (rows + [r])[..|rows|] == rows;
  }

  lemma FinishKeepsCount<P>(db: Db<P>, i: nat)
    requires |db.journal| > 0 && i == |db.journal| - 1
    requires db.journal[i].status == Pending && db.journal[i].epoch == db.epoch + 1
    requires CountsTo(AppliedEpochs(db.journal), db.epoch)
    ensures CountsTo(AppliedEpochs(Finish(db, i).journal), db.epoch + 1)
  {
    var before, after := db.journal, Finish(db, i).journal;
    assert after[..i] == before[..i];
    assert AppliedEpochs(after) == AppliedEpochs(before[..i]) + [db.epoch + 1];
    assert AppliedEpochs(before) == AppliedEpochs(before[..i]);
  }

  lemma InsertKeepsOrder<P>(db: Db<P>, row: JournalRow)
    requires Ordered(db) && row.id == db.nextOid
    ensures Ordered(db.(nextOid := db.nextOid + 1, journal := db.journal + [row]))
  {}

  lemma InsertKeepsCount(rows: seq<JournalRow>, row: JournalRow, epoch: int)
    requires CountsTo(AppliedEpochs(rows), epoch) && row.status == Pending
    ensures CountsTo(AppliedEpochs(rows + [row]), epoch)
  {
    AppendPending(rows, row);
  }

  lemma InsertKeepsRunning<P>(tx: Tx<P>, a: Action<P>, dirty: bool)
    requires Running(tx, false, dirty) && a.Journal? && Act(tx, a).Some?
    ensures Running(Act(tx, a).value, true, true)
  {
    var row := JournalRow(tx.db.nextOid, tx.db.epoch + 1, a.mutationType, a.target, a.request, Pending, []);
    InsertKeepsOrder(tx.db, row);
    InsertKeepsCount(tx.db.journal, row, tx.db.epoch);
  }

  lemma FinishKeepsRunning<P>(tx: Tx<P>, a: Action<P>, dirty: bool)
    requires Running(tx, true, dirty) && a.Finalize? && Act(tx, a).Some?
    ensures Running(Act(tx, a).value, false, false)
  {
    var i := IndexOf(tx.db.journal, tx.open.value).value;
    assert i == |tx.db.journal| - 1;
    FinishKeepsCount(tx.db, i);
  }

  lemma WriteKeepsRunning<P>(tx: Tx<P>, a: Action<P>, open: bool, dirty: bool)
    requires Running(tx, open, dirty) && !a.Journal? && !a.Finalize? && Act(tx, a).Some?
    ensures Running(Act(tx, a).value, open, DirtyAfter(a, dirty))
  {}

  lemma ActKeepsRunning<P>(tx: Tx<P>, a: Action<P>, open: bool, dirty: bool)
    requires Running(tx, open, dirty) && Act(tx, a).Some?
    requires (a.Journal? ==> !open) && (a.Finalize? ==> open)
    ensures Running(Act(tx, a).value, OpenAfter(a, open), DirtyAfter(a, dirty))
  {
    if a.Journal? {
      InsertKeepsRunning(tx, a, dirty);
    } else if a.Finalize? {
      FinishKeepsRunning(tx, a, dirty);
    } else {
      WriteKeepsRunning(tx, a, open, dirty);
    }
  }

  lemma {:induction false} ExecKeepsRunning<P>(tx: Tx<P>, body: seq<Action<P>>, open: bool, dirty: bool)
    requires Running(tx, open, dirty) && Disciplined(body, open, dirty) && Exec(tx, body).Some?
    ensures Clean(Exec(tx, body).value.db)
    decreases |body|
  {
    if body != [] {
      ActKeepsRunning(tx, body[0], open, dirty);
      ExecKeepsRunning(Act(tx, body[0]).value, body[1..], OpenAfter(body[0], open), DirtyAfter(body[0], dirty));
    }
  }

  /** Every transaction, committed or rolled back, takes a clean state to a clean state. */
  lemma TransactKeepsClean<P>(db: Db<P>, body: seq<Action<P>>)
    requires Clean(db) && Disciplined(body, false, false)
    ensures Clean(Transact(db, body))
  {
    if Exec(Tx(db, None), body).Some? {
      ExecKeepsRunning(Tx(db, None), body, false, false);
    }
  }

  function Allocs<P>(n: nat): (r: seq<Action<P>>)
    ensures |r| == n && forall i :: 0 <= i < n ==> r[i] == Alloc
  {
    seq(n, i => Alloc)
  }

  /** `insert_bootstrap_rows`: allocator at 10000, epoch 0, then five privilege ids and a refresh. */
  function Bootstrap<P>(others: OtherTables, physical: P): Option<Db<P>> {
    var rows := Db(FIRST_USER_OID, 0, "", [], others, physical);
    var body := Allocs(5) + [Rehash];
    match Exec(Tx(rows, None), body)
    case None => None
    case Some(tx) => Some(tx.db)
  }

  lemma BootstrapIsClean<P>(others: OtherTables, physical: P)
    ensures Bootstrap(others, physical).Some? && Clean(Bootstrap(others, physical).value)
    ensures Bootstrap(others, physical).value.nextOid == FIRST_USER_OID + 5
  {
    var rows := Db(FIRST_USER_OID, 0, "", [], others, physical);
    var b: seq<Action<P>> := Allocs(5) + [Rehash];
    var tx := Tx(rows, None);
    ExecAllocates(tx, b, 5);
    var last := Tx(rows.(nextOid := FIRST_USER_OID + 5), None);
    assert b[5..] == [Rehash];
    assert Exec(last, [Rehash]) == Some(Tx(Refresh(last.db), None)) by {
      var r: Action<P> := Rehash;
      assert [r][1..] == [];
    }
  }

  lemma {:induction false} ExecAllocates<P>(tx: Tx<P>, body: seq<Action<P>>, n: nat)
    requires n <= |body| && forall i :: 0 <= i < n ==> body[i] == Alloc
    ensures Exec(tx, body) == Exec(tx.(db := tx.db.(nextOid := tx.db.nextOid + n)), body[n..])
    decreases n
  {
    if n == 0 {
      assert body[0..] == body;
    } else {
      ExecAllocates(Act(tx, body[0]).value, body[1..], n - 1);
      assert body[1..][n - 1..] == body[n..];
    }
  }

  /// Object ids

  function Allocations<P>(body: seq<Action<P>>): nat
    decreases |body|
  {
    if body == [] then 0
    else (if body[0].Alloc? || body[0].Journal? then 1 else 0) + Allocations(body[1..])
  }

  lemma {:induction false} ExecAdvancesOid<P>(tx: Tx<P>, body: seq<Action<P>>)
    requires Exec(tx, body).Some?
    ensures Exec(tx, body).value.db.nextOid == tx.db.nextOid + Allocations(body)
    decreases |body|
  {
    if body != [] {
      ExecAdvancesOid(Act(tx, body[0]).value, body[1..]);
    }
  }

  /** The transaction hands out `id` for good: a rolled-back one hands out none. */
  predicate Takes<P>(db: Db<P>, body: seq<Action<P>>, id: int) {
    db.nextOid <= id < Transact(db, body).nextOid
  }

  lemma {:induction false} OidNeverGoesBack<P>(db: Db<P>, bodies: seq<seq<Action<P>>>)
    ensures db.nextOid <= TransactAll(db, bodies).nextOid
    decreases |bodies|
  {
    if bodies != [] {
      if Exec(Tx(db, None), bodies[0]).Some? {
        ExecAdvancesOid(Tx(db, None), bodies[0]);
      }
      OidNeverGoesBack(Transact(db, bodies[0]), bodies[1..]);
    }
  }

  lemma {:induction false} TransactAllSplit<P>(db: Db<P>, a: seq<seq<Action<P>>>, b: seq<seq<Action<P>>>)
    ensures TransactAll(db, a + b) == TransactAll(TransactAll(db, a), b)
    decreases |a|
  {
    if a == [] {
      assert a + b == b;
    } else {
      assert (a + b)[1..] == a[1..] + b;
      TransactAllSplit(Transact(db, a[0]), a[1..], b);
    }
  }

  /** No id is handed out twice: transactions `i < j` of one run, rolled-back ones included, take
      different ids, and every id taken stays below the allocator ever after. */
  lemma IdsAreNeverReused<P>(db: Db<P>, bodies: seq<seq<Action<P>>>, i: nat, j: nat)
    requires i < j < |bodies|
    ensures forall id :: Takes(TransactAll(db, bodies[..i]), bodies[i], id) ==>
              && id < TransactAll(db, bodies[..j]).nextOid
              && !Takes(TransactAll(db, bodies[..j]), bodies[j], id)
  {
    assert bodies[..j] == bodies[..i] + bodies[i..j];
    assert bodies[i..j] == [bodies[i]] + bodies[i + 1..j];
    var at := TransactAll(db, bodies[..i]);
    TransactAllSplit(db, bodies[..i], bodies[i..j]);
    assert TransactAll(at, bodies[i..j]) == TransactAll(Transact(at, bodies[i]), bodies[i + 1..j]);
    OidNeverGoesBack(Transact(at, bodies[i]), bodies[i + 1..j]);
  }

  /// The connection

  class Connection<P> {
    var db: Db<P>

    constructor (initial: Db<P>)
      ensures db == initial
    {
      db := initial;
    }

    method AllocateOid() returns (oid: int)
      modifies this
      ensures oid == old(db).nextOid && db == old(db).(nextOid := oid + 1)
      ensures Some(Tx(db, None)) == Act(Tx(old(db), None), Alloc)
    {
      oid := db.nextOid;
      db := db.(nextOid := db.nextOid + 1);
    }

    method RefreshCatalogChecksum()
      modifies this
      ensures db == Refresh(old(db))
    {
      var checksum := CalculateCatalogChecksum(Tables(db));
      db := db.(stored := checksum);
    }

    method InsertJournal(mutationType: Bytes, target: int, request: Bytes) returns (id: Option<int>)
      modifies this
      ensures id.Some? <==> IndexOf(old(db).journal, old(db).nextOid).None?
      ensures id.Some? ==> id.value == old(db).nextOid && db == Insert(old(db), mutationType, target, request)
      ensures id.Some? ==>
                var row := JournalRow(id.value, old(db).epoch + 1, mutationType, target, request, Pending, []);
                db == old(db).(nextOid := id.value + 1, journal := old(db).journal + [row])
    {
      var journalId := AllocateOid();
      var nextEpoch := db.epoch + 1;
      var existing := IndexOf(db.journal, journalId);
      if existing.Some? {
        return None;
      }
      var row := JournalRow(journalId, nextEpoch, mutationType, target, request, Pending, []);
      db := db.(journal := db.journal + [row]);
      return Some(journalId);
    }

    method FinishJournal(id: int) returns (ok: bool)
      modifies this
      ensures ok <==> IndexOf(old(db).journal, id).Some?
      ensures ok ==> db == Finish(old(db), IndexOf(old(db).journal, id).value)
      ensures ok ==> exists i :: 0 <= i < |old(db).journal| && old(db).journal[i].id == id
                              && db.journal == old(db).journal[i := old(db).journal[i].(status := Applied)]
      ensures ok ==> db.epoch == old(db).epoch + 1 && db.stored == Recomputed(db)
                     && db == old(db).(journal := db.journal, epoch := db.epoch, stored := db.stored)
    {
      var i := IndexOf(db.journal, id);
      if i.None? {
        return false;
      }
      db := db.(journal := db.journal[i.value := db.journal[i.value].(status := Applied)]);
      db := db.(epoch := db.epoch + 1);
      RefreshCatalogChecksum();
      return true;
    }

    /** `run_catalog_tx`: BEGIN, the body's statements, then COMMIT, or ROLLBACK at the first failure. */
    method RunCatalogTx(body: seq<Action<P>>) returns (committed: bool)
      modifies this
      ensures committed <==> Exec(Tx(old(db), None), body).Some?
      ensures db == Transact(old(db), body)
    {
      var saved, open := db, None;
      for i := 0 to |body|
        invariant Exec(Tx(db, open), body[i..]) == Exec(Tx(saved, None), body)
      {
        ghost var before, rest := Tx(db, open), body[i..];
        assert rest[0] == body[i] && rest[1..] == body[i + 1..];
        var ok := true;
        match body[i] {
          case Alloc => var _ := AllocateOid();
          case Journal(mutationType, target, request) =>
            open := InsertJournal(mutationType, target, request);
            ok := open.Some?;
          case WriteCatalog(others) => db := db.(others := others);
          case WritePhysical(physical) => db := db.(physical := physical);
          case Finalize =>
            if open.None? {
              ok := false;
            } else {
              ok := FinishJournal(open.value);
              open := None;
            }
          case Rehash => RefreshCatalogChecksum();
          case Fail => ok := false;
        }
        if !ok {
          assert Act(before, body[i]).None?;
          db := saved;
          return false;
        }
        assert Act(before, body[i]) == Some(Tx(db, open));
      }
      return true;
    }
  }
}
