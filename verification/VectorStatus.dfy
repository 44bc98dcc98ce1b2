/** The status of vector indexes: which changes are allowed, and what rebuilding and compacting leave behind. */
module VectorStatus {
  import opened Text
  import opened CatalogTables
  import opened CatalogChecksum
  import opened CatalogKernel
  import opened CatalogMutations

  /** Every known status may become unavailable; work under way may fail; building, rebuilding and compacting may end
      in active; an index may be rebuilt unless that or other work is under way. */
  ghost predicate MayBecome(current: BuildStatus, next: BuildStatus) {
    || (next == UnavailableIndex && current != UnavailableIndex && current != UnknownStatus)
    || (next == BuildStatus.Failed && current in {BuildStatus.Pending, Building, Rebuilding, Compacting})
    || (next == ActiveIndex && current in {Building, Rebuilding, Compacting})
    || (next == Rebuilding && current in {ActiveIndex, Stale, BuildStatus.Failed, UnavailableIndex})
    || (next == Building && current == BuildStatus.Pending)
    || (next in {Compacting, Stale} && current == ActiveIndex)
  }

  /** The first row of the index. */
  ghost predicate RowOf(rows: Table, index: int, i: nat) {
    i < |rows| && |rows[i]| == 16 && rows[i][0] == Cell(index) && forall j :: 0 <= j < i ==> |rows[j]| == 16 && rows[j][0] != Cell(index)
  }

  ghost predicate Has(rows: Table, index: int, status: BuildStatus) {
    exists i: nat :: RowOf(rows, index, i) && StatusFrom(rows[i][13]) == status
  }

  /** Status and error text of the index's rows are set; every other cell of every table, the journal, the ids and
      DuckDB stay. */
  ghost predicate Sets<P>(a: Db<P>, b: Db<P>, index: int, next: BuildStatus, error: Bytes) {
    var (p, q) := (VectorRows(a), VectorRows(b));
    && b == a.(others := b.others, stored := b.stored)
    && |b.others| == |a.others| && (forall k :: 0 <= k < |a.others| && k != 7 ==> b.others[k] == a.others[k])
    && |q| == |p|
    && forall i, k :: 0 <= i < |p| && 0 <= k < 16 ==>
         q[i][k] == if p[i][0] != Cell(index) then p[i][k] else if k == 13 then StatusText(next) else if k == 15 then error else p[i][k]
  }

  lemma AllowedIff(current: BuildStatus, next: BuildStatus)
    ensures TransitionAllowed(current, next) <==> MayBecome(current, next)
  {}

  lemma {:induction false} StatusAt(rows: Table, index: int, i: nat)
    requires RowOf(rows, index, i)
    ensures StatusOf(rows, index) == Some(StatusFrom(rows[i][13]))
    decreases i
  {
    if i > 0 {
      assert rows[0][0] != Cell(index);
      assert forall j :: 0 <= j < i - 1 ==> rows[1..][j] == rows[j + 1];
      StatusAt(rows[1..], index, i - 1);
    }
  }

  lemma StatusIsFound(rows: Table, index: int) returns (i: nat)
    requires (forall k :: 0 <= k < |rows| ==> |rows[k]| == 16) && StatusOf(rows, index).Some?
    ensures RowOf(rows, index, i) && StatusFrom(rows[i][13]) == StatusOf(rows, index).value
  {
    i := StatusIsInRow(rows, index);
    while exists j :: 0 <= j < i && IsRow(rows[j], index)
      invariant i < |rows| && IsRow(rows[i], index)
      decreases i
    {
      var j :| 0 <= j < i && IsRow(rows[j], index);
      i := j;
    }
    assert forall j :: 0 <= j < i ==> !IsRow(rows[j], index);
    StatusAt(rows, index, i);
  }

  lemma {:induction false} NoStatusNoRow(rows: Table, index: int, i: nat)
    requires (forall k :: 0 <= k < |rows| ==> |rows[k]| == 16) && StatusOf(rows, index).None? && i < |rows|
    ensures rows[i][0] != Cell(index)
    decreases |rows|
  {
    if i > 0 {
      NoStatusNoRow(rows[1..], index, i - 1);
    }
  }

  lemma HasIff(rows: Table, index: int, status: BuildStatus)
    requires forall k :: 0 <= k < |rows| ==> |rows[k]| == 16
    ensures Has(rows, index, status) <==> StatusOf(rows, index) == Some(status)
  {
    if StatusOf(rows, index).Some? {
      var i := StatusIsFound(rows, index);
      forall j: nat | RowOf(rows, index, j)
        ensures i == j
      {}
    } else {
      forall i: nat | RowOf(rows, index, i)
        ensures false
      {
        NoStatusNoRow(rows, index, i);
      }
    }
  }

  lemma SetStatusSets<P>(db: Db<P>, index: int, next: BuildStatus, error: Bytes)
    ensures Sets(db, SetStatus(db, index, next, error), index, next, error)
  {}

  lemma RefreshSets<P>(a: Db<P>, b: Db<P>, index: int, next: BuildStatus, error: Bytes)
    requires Sets(a, b, index, next, error)
    ensures Sets(a, Refresh(b), index, next, error)
  {}

  /** A change of status outside a transaction: it happens exactly if the index has a row whose status may become
      the next one, first without and then with the checksum taken anew, and sets nothing but status and error. */
  lemma TransitionDoes<P>(db: Db<P>, index: int, next: BuildStatus, error: Bytes)
    ensures var c := Transition(db, index, next, error);
            && (c != [] <==> exists current :: Has(VectorRows(db), index, current) && MayBecome(current, next))
            && (c != [] ==> |c| == 2 && c[0].halfway && !c[1].halfway && c[0].db.stored == db.stored
                            && Sets(db, c[0].db, index, next, error) && Sets(db, c[1].db, index, next, error))
  {
    var rows := VectorRows(db);
    SetStatusSets(db, index, next, error);
    RefreshSets(db, SetStatus(db, index, next, error), index, next, error);
    forall current
      ensures Has(rows, index, current) <==> StatusOf(rows, index) == Some(current)
    {
      HasIff(rows, index, current);
    }
    if StatusOf(rows, index).Some? {
      AllowedIff(StatusOf(rows, index).value, next);
    }
  }

  /** The texts of the eight states are read back. */
  lemma SetIsShown<P>(a: Db<P>, b: Db<P>, index: int, next: BuildStatus, error: Bytes, current: BuildStatus)
    requires Sets(a, b, index, next, error) && next != UnknownStatus && Has(VectorRows(a), index, current)
    ensures Has(VectorRows(b), index, next)
  {
    var p, q := VectorRows(a), VectorRows(b);
    var i: nat :| RowOf(p, index, i);
    StatusIsReadBack(next);
    assert forall j :: 0 <= j < |p| ==> q[j][0] == p[j][0];
    assert RowOf(q, index, i) && q[i][13] == StatusText(next);
  }

  /** One change of status, in its two commits. */
  ghost predicate Marks<P>(db: Db<P>, c: seq<Committed<P>>, index: int, next: BuildStatus, error: Bytes) {
    |c| == 2 && c[0].halfway && !c[1].halfway && Sets(db, c[1].db, index, next, error) && Has(VectorRows(c[1].db), index, next)
  }

  lemma ChangeMarks<P>(db: Db<P>, index: int, current: BuildStatus, next: BuildStatus, error: Bytes)
    requires Has(VectorRows(db), index, current) && MayBecome(current, next) && next != UnknownStatus
    ensures Marks(db, Transition(db, index, next, error), index, next, error)
  {
    TransitionDoes(db, index, next, error);
    SetIsShown(db, Transition(db, index, next, error)[1].db, index, next, error, current);
  }

  /** The commits of a compaction: nothing if the index is not active; otherwise it is marked as compacting, and then
      as active again, or as failed with the error. */
  ghost predicate Compacted<P>(db: Db<P>, c: seq<Committed<P>>, index: int, ok: bool, error: Bytes) {
    if !Has(VectorRows(db), index, ActiveIndex) then c == []
    else
      && |c| == 4 && Marks(db, c[..2], index, Compacting, [])
      && (ok ==> Marks(c[1].db, c[2..], index, ActiveIndex, []))
      && (!ok ==> Marks(c[1].db, c[2..], index, BuildStatus.Failed, error))
  }

  lemma TwoMarks<P>(db: Db<P>, a: seq<Committed<P>>, b: seq<Committed<P>>, index: int, ok: bool, error: Bytes)
    requires Has(VectorRows(db), index, ActiveIndex) && Marks(db, a, index, Compacting, [])
    requires Marks(a[1].db, b, index, if ok then ActiveIndex else BuildStatus.Failed, if ok then [] else error)
    ensures Compacted(db, a + b, index, ok, error)
  {
    assert (a + b)[..2] == a && (a + b)[2..] == b;
  }

  lemma TransitionMarks<P>(db: Db<P>, index: int, ok: bool, error: Bytes) returns (a: seq<Committed<P>>, b: seq<Committed<P>>)
    requires Has(VectorRows(db), index, ActiveIndex)
    ensures a + b == TwoChanges(db, index, Compacting, [], if ok then ActiveIndex else BuildStatus.Failed, if ok then [] else error)
    ensures Marks(db, a, index, Compacting, [])
    ensures Marks(a[1].db, b, index, if ok then ActiveIndex else BuildStatus.Failed, if ok then [] else error)
  {
    var next, text := if ok then ActiveIndex else BuildStatus.Failed, if ok then [] else error;
    ChangeMarks(db, index, ActiveIndex, Compacting, []);
    a := Transition(db, index, Compacting, []);
    ChangeMarks(a[1].db, index, Compacting, next, text);
    b := Transition(a[1].db, index, next, text);
  }

  lemma CompactionDoes<P>(db: Db<P>, index: int, ok: bool, error: Bytes)
    ensures Compacted(db, Commits(db, Compact(index, ok, error)), index, ok, error)
  {
    HasIff(VectorRows(db), index, ActiveIndex);
    if Has(VectorRows(db), index, ActiveIndex) {
      var a, b := TransitionMarks(db, index, ok, error);
      TwoMarks(db, a, b, index, ok, error);
    }
  }

  ghost predicate CanRebuild<P>(db: Db<P>, index: int) {
    exists current :: Has(VectorRows(db), index, current) && MayBecome(current, Rebuilding)
  }

  /** The commits of a rebuild: nothing if the index may not be rebuilt; otherwise it is marked as rebuilding first,
      and then either the whole transaction is committed or the index is marked as failed with the error. */
  ghost predicate Rebuilt<P>(db: Db<P>, c: seq<Committed<P>>, index: int, parts: seq<Part<P>>, error: Bytes) {
    if !CanRebuild(db, index) then c == []
    else
      && |c| >= 3 && Marks(db, c[..2], index, Rebuilding, [])
      && var tx := Exec(Tx(c[1].db, None), Body(parts));
         if tx.Some? then c[2..] == [Committed(tx.value.db, false)] else Marks(c[1].db, c[2..], index, BuildStatus.Failed, error)
  }

  lemma MarkAndRest<P>(db: Db<P>, a: seq<Committed<P>>, b: seq<Committed<P>>, index: int, parts: seq<Part<P>>, error: Bytes)
    requires CanRebuild(db, index) && Marks(db, a, index, Rebuilding, [])
    requires var tx := Exec(Tx(a[1].db, None), Body(parts));
             if tx.Some? then b == [Committed(tx.value.db, false)] else Marks(a[1].db, b, index, BuildStatus.Failed, error)
    ensures Rebuilt(db, a + b, index, parts, error)
  {
    assert (a + b)[..2] == a && (a + b)[2..] == b;
  }

  lemma RebuildMarks<P>(db: Db<P>, index: int, error: Bytes)
    requires CanRebuild(db, index)
    ensures var a := Transition(db, index, Rebuilding, []);
            && Marks(db, a, index, Rebuilding, [])
            && Marks(a[1].db, Transition(a[1].db, index, BuildStatus.Failed, error), index, BuildStatus.Failed, error)
  {
    var current :| Has(VectorRows(db), index, current) && MayBecome(current, Rebuilding);
    ChangeMarks(db, index, current, Rebuilding, []);
    ChangeMarks(Transition(db, index, Rebuilding, [])[1].db, index, Rebuilding, BuildStatus.Failed, error);
  }

  lemma RebuildDoes<P>(db: Db<P>, index: int, parts: seq<Part<P>>, error: Bytes)
    ensures Rebuilt(db, Commits(db, Rebuild(index, parts, error)), index, parts, error)
  {
    var a := Transition(db, index, Rebuilding, []);
    if CanRebuild(db, index) {
      RebuildMarks(db, index, error);
      var marked := a[1].db;
      var done := Exec(Tx(marked, None), Body(parts)).Some?;
      MarkAndRest(db, a, if done then [Committed(Transact(marked, Body(parts)), false)] else Transition(marked, index, BuildStatus.Failed, error),
                  index, parts, error);
    } else {
      TransitionDoes(db, index, Rebuilding, []);
    }
  }
}
