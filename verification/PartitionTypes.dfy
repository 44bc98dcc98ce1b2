/** What becomes of a partitioned table's columns in a partition created from the catalog. */
module PartitionTypes {
  import opened Text
  import opened Oids
  import opened TableColumns
  import opened TableChanges
  import opened TableCreation
  import opened AlterTable
  import opened Consistency
  import opened AlterRuns
  import opened CatalogRuns
  import opened NotNullFlags
  import opened TypeMapping
  import opened PrintedTypes
  import TypeTrees

  /// A new partition

  /** Column by column, a new partition is filed like its parent exactly where the parent's type is printable,
      and has the parent's NOT NULL exactly where no primary key column is left undeclared. */
  lemma PartitionColumnMatchesIff(duck: DuckTypes, db: Db, parent: int, at: nat, k: nat)
    requires var ty := Rsduck(duck); DbOk(ty, db) && NewPartition(ty, db, parent, at).Some?
    requires parent in db.tables && k < |Views(db.tables[parent].rows)|
    ensures var db1, id := NewPartition(Rsduck(duck), db, parent, at).value, db.reg.nextOid;
            var r := ActiveRows(db.tables[parent].rows)[k];
            && id in db1.tables && parent in db1.tables && db1.tables[parent].rows == db.tables[parent].rows
            && |Views(db1.tables[id].rows)| == |ActiveRows(db1.tables[id].rows)| == |Views(db.tables[parent].rows)|
            && (Views(db1.tables[id].rows)[k] == Views(db.tables[parent].rows)[k] <==> Printable(db.reg, r.typeId, r.typmod))
            && (ActiveRows(db1.tables[id].rows)[k].notNull == r.notNull <==> r.notNull || r.attnum !in PrimaryOf(db, parent))
  {
    var ty, id := Rsduck(duck), db.reg.nextOid;
    var cols, mid := NewPartitionAttaches(ty, db, parent, at);
    NewRelationIsSound(ty, db, cols, Ordinary);
    NewRelationFlags(ty, db, cols, Ordinary);
    assert RelationOk(ty, db, parent);
    NewColumnMatchesIff(duck, db, parent, cols, mid.reg, k);
    NewChild(ty, db, parent, cols, at, mid, NewPartition(ty, db, parent, at).value);
  }

  lemma NewChild(ty: Typing, db: Db, parent: int, cols: seq<DuckColumn>, at: nat, mid: Db, db1: Db)
    requires DbOk(ty, db) && Attached(ty, db, parent, cols, at, mid, db1)
    ensures var id := db.reg.nextOid;
            && id in mid.tables && id in db1.tables && db1.tables[id] == mid.tables[id]
            && parent in db1.tables && db1.tables[parent].rows == db.tables[parent].rows
  {
    NewRelationIsSound(ty, db, cols, Ordinary);
  }

  lemma NewColumnMatchesIff(duck: DuckTypes, db: Db, parent: int, cols: seq<DuckColumn>, reg1: Registry, k: nat)
    requires parent in db.tables && ParentOk(db.tables[parent]) && PartitionColumns(Rsduck(duck), db, parent) == Some(cols)
    requires RegistryOk(db.reg) && Grows(db.reg, reg1) && k < |Views(db.tables[parent].rows)| && AllTyped(Rsduck(duck), reg1.types, cols)
    ensures |cols| == |Views(db.tables[parent].rows)| == |ActiveRows(db.tables[parent].rows)|
    ensures var r := ActiveRows(db.tables[parent].rows)[k];
            && (DuckView(Rsduck(duck), reg1.types, cols[k]) == Views(db.tables[parent].rows)[k] <==> Printable(db.reg, r.typeId, r.typmod))
            && (cols[k].notNull == r.notNull <==> r.notNull || r.attnum !in PrimaryOf(db, parent))
  {
    var ty, t := Rsduck(duck), db.tables[parent];
    var r := ActiveRows(t.rows)[k];
    PrintedAt(ty, db.reg, ActiveRows(t.rows), t.defaults, PrimaryOf(db, parent), k);
    ActiveRowsAreViews(t.rows, k);
    PrintedAreAlike(ty, db, parent, reg1.types);
    ComesBackIffPrintable(db.reg, reg1, r.typeId, r.typmod);
    AlikeEqualIff(DuckViews(ty, reg1.types, cols), Views(t.rows), k);
    ReadsBackIff(duck, reg1.types, cols[k].duckType, r.typeId, r.typmod);
  }

  lemma AlikeEqualIff(a: seq<View>, b: seq<View>, k: nat)
    requires Alike(a, b) && k < |a|
    ensures a[k] == b[k] <==> a[k].typeId == b[k].typeId && a[k].typmod == b[k].typmod
  {}

  lemma ReadsBackIff(duck: DuckTypes, types: map<string, int>, text: string, id: int, modifier: int)
    requires TypeIdIn(Rsduck(duck), types, text).Some?
    ensures (TypeIdIn(Rsduck(duck), types, text) == Some(id) && Rsduck(duck).modifier(text) == modifier)
       <==> Reprints(types, text, id, modifier)
  {}

  /// Over runs

  /** `marks` has the columns in which parent and partition are filed differently. */
  ghost predicate DifferAt(a: seq<View>, b: seq<View>, marks: seq<bool>) {
    |a| == |b| == |marks| && forall k :: 0 <= k < |marks| ==> (marks[k] <==> a[k] != b[k])
  }

  /** An ALTER moves these marks like those of NOT NULL, but that a rename settles nothing. */
  function ChangeTypeMarks(vs: seq<View>, marks: seq<bool>, c: Change): seq<bool> {
    if c.Rename? then marks else ChangeMarks(vs, marks, c)
  }

  lemma {:induction false} RemoveDifferences(a: seq<View>, b: seq<View>, marks: seq<bool>, names: seq<string>)
    requires Alike(a, b) && DifferAt(a, b, marks) && RemoveNames(a, names).Some?
    ensures RemoveNames(b, names).Some?
    ensures DifferAt(RemoveNames(a, names).value, RemoveNames(b, names).value, RemoveMarks(a, marks, names))
    decreases |names|
  {
    if names != [] {
      AlikeIndex(a, b, Lower(names[0]));
      var k := IndexOfName(a, Lower(names[0])).value;
      AlikeRemove(a, b, k);
      RemoveDifferences(Remove(a, k), Remove(b, k), Remove(marks, k), names[1..]);
    }
  }

  lemma ChangeDifferences(ty: Typing, types: map<string, int>, a: seq<View>, b: seq<View>, marks: seq<bool>, c: Change)
    requires Alike(a, b) && DifferAt(a, b, marks) && ChangeViews(ty, types, a, c).Some?
    ensures ChangeViews(ty, types, b, c).Some?
    ensures DifferAt(ChangeViews(ty, types, a, c).value, ChangeViews(ty, types, b, c).value, ChangeTypeMarks(a, marks, c))
  {
    match c
    case Add(_, _) =>
    case Drop(names) => RemoveDifferences(a, b, marks, names);
    case Rename(old_, _) => AlikeIndex(a, b, Lower(old_));
    case Retype(name, _) => AlikeIndex(a, b, Lower(name));
  }

  ghost function Unprintable(reg: Registry, rows: seq<ColumnRow>): (r: seq<bool>)
    ensures |r| == |rows| && forall k :: 0 <= k < |r| ==> r[k] == !Printable(reg, rows[k].typeId, rows[k].typmod)
  {
    seq(|rows|, k requires 0 <= k < |rows| => !Printable(reg, rows[k].typeId, rows[k].typmod))
  }

  function AlterDiffer(db: Db, rel: int, a: Alter, p: int, c: int, marks: seq<bool>): seq<bool> {
    var change := if rel == p then ChangeTo(db, p, a, c) else None;
    if change.None? || p !in db.tables then marks else ChangeTypeMarks(Views(db.tables[p].rows), marks, change.value)
  }

  /** The differing columns of partition `c` of `p` after one statement. */
  ghost function StepDiffer(duck: DuckTypes, db: Db, s: Statement, p: int, c: int, marks: seq<bool>): seq<bool> {
    if Apply(Rsduck(duck), db, s).None? || p !in db.tables then marks
    else match s
      case AddPartition(parent, _) =>
        if parent == p && c == db.reg.nextOid then Unprintable(db.reg, ActiveRows(db.tables[p].rows)) else marks
      case AlterTable(rel, a) => AlterDiffer(db, rel, a, p, c, marks)
      case _ => marks
  }

  /** After a run: a column differs exactly if its type was not printable when the partition was created, and
      it has not been retyped since. */
  ghost function RunDiffer(duck: DuckTypes, db: Db, ss: seq<Statement>, p: int, c: int, marks: seq<bool>): seq<bool>
    decreases |ss|
  {
    if ss == [] then marks
    else RunDiffer(duck, Execute(Rsduck(duck), db, ss[0]), ss[1..], p, c, StepDiffer(duck, db, ss[0], p, c, marks))
  }

  ghost predicate IsPartition(db: Db, p: int, c: int) {
    p in db.partitions && c in db.partitions[p] && p in db.tables && c in db.tables
  }

  ghost predicate PairDiffers(db: Db, p: int, c: int, marks: seq<bool>) {
    IsPartition(db, p, c) ==> DifferAt(Views(db.tables[p].rows), Views(db.tables[c].rows), marks)
  }

  lemma SameTablesSamePair(a: Db, b: Db, p: int, c: int, marks: seq<bool>)
    requires PairDiffers(a, p, c, marks) && IsPartition(b, p, c) && IsPartition(a, p, c)
    requires b.tables[p].rows == a.tables[p].rows && b.tables[c].rows == a.tables[c].rows
    ensures PairDiffers(b, p, c, marks)
  {}

  /** A statement that touches neither. */
  lemma UntouchedPair(ty: Typing, a: Db, b: Db, touched: set<int>, p: int, c: int, marks: seq<bool>)
    requires DbOk(ty, a) && Step(a, b, touched) && PairDiffers(a, p, c, marks)
    requires p !in touched && (p in a.partitions && c in a.partitions[p] ==> c !in touched)
    ensures PairDiffers(b, p, c, marks)
  {
    assert SameAt(a, b, p);
    if p in a.partitions && c in a.partitions[p] {
      assert SameAt(a, b, c);
      PartitionsAreApart(ty, a, p);
    }
  }

  lemma CreationKeepsPair(duck: DuckTypes, db: Db, s: Statement, p: int, c: int, marks: seq<bool>)
    requires DbOk(Rsduck(duck), db) && PairDiffers(db, p, c, marks) && Apply(Rsduck(duck), db, s).Some?
    requires s.CreateTable? || s.CreatePartitioned?
    ensures PairDiffers(Apply(Rsduck(duck), db, s).value, p, c, marks)
  {
    var ty, id, db1 := Rsduck(duck), db.reg.nextOid, Apply(Rsduck(duck), db, s).value;
    FreshIsApart(ty, db, id);
    if s.CreateTable? {
      NewTableIsSound(ty, db, s.defs);
    } else {
      NewPartitionedIsOk(ty, db, s.defs, s.key);
    }
    if p != id {
      UntouchedPair(ty, db, db1, {id}, p, c, marks);
    }
  }

  lemma NewPairDiffers(duck: DuckTypes, db: Db, p: int, at: nat)
    requires DbOk(Rsduck(duck), db) && NewPartition(Rsduck(duck), db, p, at).Some?
    ensures p in db.tables
    ensures PairDiffers(NewPartition(Rsduck(duck), db, p, at).value, p, db.reg.nextOid, Unprintable(db.reg, ActiveRows(db.tables[p].rows)))
  {
    var ty, id, db1 := Rsduck(duck), db.reg.nextOid, NewPartition(Rsduck(duck), db, p, at).value;
    var cols, mid := NewPartitionAttaches(ty, db, p, at);
    NewChild(ty, db, p, cols, at, mid, db1);
    AttachedChildOk(ty, db, p, cols, at, mid, db1, id);
    forall k | 0 <= k < |Views(db.tables[p].rows)|
      ensures Views(db1.tables[id].rows)[k] == Views(db.tables[p].rows)[k] <==>
              Printable(db.reg, ActiveRows(db.tables[p].rows)[k].typeId, ActiveRows(db.tables[p].rows)[k].typmod)
    {
      PartitionColumnMatchesIff(duck, db, p, at, k);
    }
  }

  lemma SiblingStays(ty: Typing, db: Db, p: int, at: nat, c: int, marks: seq<bool>)
    requires DbOk(ty, db) && NewPartition(ty, db, p, at).Some? && PairDiffers(db, p, c, marks) && c != db.reg.nextOid
    ensures PairDiffers(NewPartition(ty, db, p, at).value, p, c, marks)
  {
    var db1 := NewPartition(ty, db, p, at).value;
    var cols, mid := NewPartitionAttaches(ty, db, p, at);
    AttachedIsStep(ty, db, p, cols, at, mid, db1);
    InsertedMembers(db.partitions[p], at, db.reg.nextOid);
    NewChild(ty, db, p, cols, at, mid, db1);
    PartitionsAreApart(ty, db, p);
    if c in db.partitions[p] {
      assert SameAt(db, db1, c);
      SameTablesSamePair(db, db1, p, c, marks);
    }
  }

  lemma OtherParentsPair(ty: Typing, db: Db, parent: int, at: nat, p: int, c: int, marks: seq<bool>)
    requires DbOk(ty, db) && NewPartition(ty, db, parent, at).Some? && PairDiffers(db, p, c, marks) && p != parent
    ensures PairDiffers(NewPartition(ty, db, parent, at).value, p, c, marks)
  {
    var id, db1 := db.reg.nextOid, NewPartition(ty, db, parent, at).value;
    var cols, mid := NewPartitionAttaches(ty, db, parent, at);
    AttachedIsStep(ty, db, parent, cols, at, mid, db1);
    FreshIsApart(ty, db, id);
    PartitionsAreApart(ty, db, parent);
    if p != id {
      UntouchedPair(ty, db, db1, {id, parent}, p, c, marks);
    } else {
      assert p !in db1.partitions;
    }
  }

  lemma OldPairStays(ty: Typing, db: Db, parent: int, at: nat, p: int, c: int, marks: seq<bool>)
    requires DbOk(ty, db) && NewPartition(ty, db, parent, at).Some?
    requires PairDiffers(db, p, c, marks) && !(parent == p && c == db.reg.nextOid)
    ensures PairDiffers(NewPartition(ty, db, parent, at).value, p, c, marks)
  {
    if p == parent {
      SiblingStays(ty, db, p, at, c, marks);
    } else {
      OtherParentsPair(ty, db, parent, at, p, c, marks);
    }
  }

  lemma OrdinaryKeepsPair(ty: Typing, db: Db, rel: int, a: Alter, p: int, c: int, marks: seq<bool>)
    requires DbOk(ty, db) && PairDiffers(db, p, c, marks) && p in db.partitions
    requires rel in db.kinds && rel in db.tables && db.kinds[rel] == Ordinary && rel !in db.internal
    requires AlterOrdinary(ty, db, rel, a).Some?
    ensures rel != p && PairDiffers(AlterOrdinary(ty, db, rel, a).value, p, c, marks)
  {
    var db1 := AlterOrdinary(ty, db, rel, a).value;
    assert RelationOk(ty, db, rel) && RelationOk(ty, db, p);
    AlterOrdinaryKeepsRelation(ty, db, rel, a);
    OrdinaryIsApart(ty, db, rel);
    if IsPartition(db1, p, c) {
      assert db1.tables.Keys == db.tables.Keys && c in db1.tables.Keys && p in db1.tables.Keys;
      SameTablesSamePair(db, db1, p, c, marks);
    }
  }

  /** Parent and partition make the same change, their types read in the same registry. */
  lemma BothChange(ty: Typing, db: Db, p: int, a: Alter, c: int) returns (types: map<string, int>)
    requires DbOk(ty, db) && IsPartition(db, p, c) && p in db.partitionKey && AlterPartitions(ty, db, p, a).Some?
    ensures var db1, change := AlterPartitions(ty, db, p, a).value, PartitionChange(db, p, a);
            && change.Some? && p in db1.tables && c in db1.tables
            && Some(Views(db1.tables[p].rows)) == ChangeViews(ty, types, Views(db.tables[p].rows), change.value)
            && Some(Views(db1.tables[c].rows)) == ChangeViews(ty, types, Views(db.tables[c].rows), change.value)
  {
    var change, mid, reg1, t1 := AlterPartitionsComesAbout(ty, db, p, a);
    PartitionsAreApart(ty, db, p);
    types := mid.reg.types;
    assert PartitionChanged(ty, db, p, change, mid, c);
  }

  /** The altered partitioned table and one of its partitions; `db` has the journal row already. */
  lemma AlteredPair(ty: Typing, db: Db, p: int, a: Alter, c: int, marks: seq<bool>)
    requires DbOk(ty, db) && IsPartition(db, p, c) && p in db.partitionKey
    requires DifferAt(Views(db.tables[p].rows), Views(db.tables[c].rows), marks) && AlterPartitions(ty, db, p, a).Some?
    ensures PartitionChange(db, p, a).Some?
    ensures PairDiffers(AlterPartitions(ty, db, p, a).value, p, c,
                        ChangeTypeMarks(Views(db.tables[p].rows), marks, PartitionChange(db, p, a).value))
  {
    var types := BothChange(ty, db, p, a, c);
    assert Alike(Views(db.tables[p].rows), Views(db.tables[c].rows)) by {
      PartitionsAreApart(ty, db, p);
    }
    ChangeDifferences(ty, types, Views(db.tables[p].rows), Views(db.tables[c].rows), marks, PartitionChange(db, p, a).value);
  }

  lemma AlterPartitionsIsStep(ty: Typing, db: Db, rel: int, a: Alter)
    requires DbOk(ty, db) && rel in db.partitions && rel in db.tables && rel in db.partitionKey && AlterPartitions(ty, db, rel, a).Some?
    ensures Step(db, AlterPartitions(ty, db, rel, a).value, Touched(db, rel))
    ensures AlterPartitions(ty, db, rel, a).value.partitions == db.partitions
    ensures AlterPartitions(ty, db, rel, a).value.tables.Keys == db.tables.Keys
  {
    var change, mid, reg1, t1 := AlterPartitionsComesAbout(ty, db, rel, a);
    AlteredIsStep(ty, db, rel, a, change, mid, reg1, t1, AlterPartitions(ty, db, rel, a).value);
    TablesChangeIsStep(db, AlterPartitions(ty, db, rel, a).value, Touched(db, rel));
  }

  lemma PartitionsOfOthers(ty: Typing, db: Db, rel: int, p: int, c: int)
    requires DbOk(ty, db) && rel in db.partitions && p in db.partitions && p != rel
    ensures p !in Touched(db, rel) && (c in db.partitions[p] ==> c !in Touched(db, rel))
  {
    PartitionsAreApart(ty, db, rel);
  }

  lemma OtherPairStays(ty: Typing, db: Db, rel: int, a: Alter, p: int, c: int, marks: seq<bool>)
    requires DbOk(ty, db) && PairDiffers(db, p, c, marks) && p in db.partitions && p != rel
    requires rel in db.partitions && rel in db.tables && rel in db.partitionKey && AlterPartitions(ty, db, rel, a).Some?
    ensures PairDiffers(AlterPartitions(ty, db, rel, a).value, p, c, marks)
  {
    AlterPartitionsIsStep(ty, db, rel, a);
    PartitionsOfOthers(ty, db, rel, p, c);
    UntouchedPair(ty, db, AlterPartitions(ty, db, rel, a).value, Touched(db, rel), p, c, marks);
  }

  lemma NothingKeepsPair(ty: Typing, db: Db, rel: int, a: Alter, p: int, c: int, marks: seq<bool>)
    requires PairDiffers(db, p, c, marks) && rel in db.kinds && db.kinds[rel] == Partitioned
    requires rel in db.partitions && rel in db.tables && rel in db.partitionKey && FindsNothing(db.tables[rel], a)
    requires AlterPartitioned(ty, db, rel, a).Some?
    ensures AlterDiffer(db, rel, a, p, c, marks) == marks && PairDiffers(AlterPartitioned(ty, db, rel, a).value, p, c, marks)
  {}

  lemma OwnPartitionsStay(ty: Typing, db: Db, p: int, a: Alter, c: int)
    requires DbOk(ty, db) && p in db.partitions && p in db.tables && p in db.partitionKey && AlterPartitions(ty, db, p, a).Some?
    ensures IsPartition(AlterPartitions(ty, db, p, a).value, p, c) ==> IsPartition(db, p, c)
  {
    AlterPartitionsIsStep(ty, db, p, a);
    assert c in AlterPartitions(ty, db, p, a).value.tables <==> c in db.tables.Keys;
  }

  /** The statement's own partitioned table. */
  lemma OwnPair(ty: Typing, db: Db, p: int, a: Alter, c: int, marks: seq<bool>)
    requires DbOk(ty, db) && PairDiffers(db, p, c, marks) && p in db.kinds && db.kinds[p] == Partitioned
    requires p in db.partitions && p in db.tables && p in db.partitionKey && !FindsNothing(db.tables[p], a)
    requires AlterPartitions(ty, Journal(db), p, a).Some?
    ensures PairDiffers(AlterPartitions(ty, Journal(db), p, a).value, p, c, AlterDiffer(db, p, a, p, c, marks))
  {
    var j := Journal(db);
    JournalKeepsDb(ty, db);
    if IsPartition(j, p, c) {
      AlteredPair(ty, j, p, a, c, marks);
    } else {
      OwnPartitionsStay(ty, j, p, a, c);
    }
  }

  lemma PartitionedKeepsPair(ty: Typing, db: Db, rel: int, a: Alter, p: int, c: int, marks: seq<bool>)
    requires DbOk(ty, db) && PairDiffers(db, p, c, marks) && p in db.partitions
    requires rel in db.kinds && db.kinds[rel] == Partitioned && rel in db.partitions && rel in db.tables && rel in db.partitionKey
    requires AlterPartitioned(ty, db, rel, a).Some?
    ensures PairDiffers(AlterPartitioned(ty, db, rel, a).value, p, c, AlterDiffer(db, rel, a, p, c, marks))
  {
    if FindsNothing(db.tables[rel], a) {
      NothingKeepsPair(ty, db, rel, a, p, c, marks);
    } else if p == rel {
      OwnPair(ty, db, p, a, c, marks);
    } else {
      JournalKeepsDb(ty, db);
      OtherPairStays(ty, Journal(db), rel, a, p, c, marks);
    }
  }

  lemma AlterKeepsPair(ty: Typing, db: Db, rel: int, a: Alter, p: int, c: int, marks: seq<bool>)
    requires DbOk(ty, db) && PairDiffers(db, p, c, marks) && AlterRelation(ty, db, rel, a).Some?
    ensures PairDiffers(AlterRelation(ty, db, rel, a).value, p, c, AlterDiffer(db, rel, a, p, c, marks))
  {
    if p in db.partitions {
      if db.kinds[rel] == Ordinary {
        OrdinaryKeepsPair(ty, db, rel, a, p, c, marks);
      } else {
        PartitionedKeepsPair(ty, db, rel, a, p, c, marks);
      }
    } else {
      AlterKeepsPartitions(ty, db, rel, a);
    }
  }

  lemma AlterKeepsPartitions(ty: Typing, db: Db, rel: int, a: Alter)
    requires DbOk(ty, db) && AlterRelation(ty, db, rel, a).Some?
    ensures AlterRelation(ty, db, rel, a).value.partitions == db.partitions
  {
    assert RelationOk(ty, db, rel);
    if db.kinds[rel] == Ordinary {
      AlterOrdinaryKeepsRelation(ty, db, rel, a);
    } else if !FindsNothing(db.tables[rel], a) {
      JournalKeepsDb(ty, db);
      AlterPartitionsIsStep(ty, Journal(db), rel, a);
    }
  }

  lemma StepKeepsPair(duck: DuckTypes, db: Db, s: Statement, p: int, c: int, marks: seq<bool>)
    requires DbOk(Rsduck(duck), db) && PairDiffers(db, p, c, marks)
    ensures PairDiffers(Execute(Rsduck(duck), db, s), p, c, StepDiffer(duck, db, s, p, c, marks))
  {
    var ty := Rsduck(duck);
    if Apply(ty, db, s).Some? {
      match s
      case CreateTable(_) => CreationKeepsPair(duck, db, s, p, c, marks);
      case CreatePartitioned(_, _) => CreationKeepsPair(duck, db, s, p, c, marks);
      case AddPartition(parent, at) => {
        if parent == p && c == db.reg.nextOid {
          NewPairDiffers(duck, db, p, at);
        } else {
          OldPairStays(ty, db, parent, at, p, c, marks);
        }
      }
      case CreateKey(_, _, _) =>
      case DropTable(rel) => DropIsFrame(db, rel);
      case AlterTable(rel, a) => AlterKeepsPair(ty, db, rel, a, p, c, marks);
    }
  }

  lemma {:induction false} RunKeepsPair(duck: DuckTypes, db: Db, ss: seq<Statement>, p: int, c: int, marks: seq<bool>)
    requires DbOk(Rsduck(duck), db) && PairDiffers(db, p, c, marks)
    ensures PairDiffers(Run(Rsduck(duck), db, ss), p, c, RunDiffer(duck, db, ss, p, c, marks))
    decreases |ss|
  {
    if ss != [] {
      ExecuteKeepsDb(Rsduck(duck), db, ss[0]);
      StepKeepsPair(duck, db, ss[0], p, c, marks);
      RunKeepsPair(duck, Execute(Rsduck(duck), db, ss[0]), ss[1..], p, c, StepDiffer(duck, db, ss[0], p, c, marks));
    }
  }

  /** After any run a partition has the parent's columns in the parent's order, each filed with the parent's
      type and modifier exactly where it is not marked. */
  lemma PartitionDiffersIffMarked(duck: DuckTypes, ss: seq<Statement>, p: int, c: int, k: nat)
    requires var db := Run(Rsduck(duck), NO_RELATIONS, ss); IsPartition(db, p, c) && k < |Views(db.tables[p].rows)|
    ensures var db := Run(Rsduck(duck), NO_RELATIONS, ss);
            var marks := RunDiffer(duck, NO_RELATIONS, ss, p, c, []);
            && |Views(db.tables[c].rows)| == |Views(db.tables[p].rows)| == |marks|
            && Views(db.tables[c].rows)[k].name == Views(db.tables[p].rows)[k].name
            && (Views(db.tables[c].rows)[k] != Views(db.tables[p].rows)[k] <==> marks[k])
  {
    assert DbOk(Rsduck(duck), NO_RELATIONS);
    RunKeepsPair(duck, NO_RELATIONS, ss, p, c, []);
    PartitionsMatchParent(Rsduck(duck), ss, p, c);
  }

  /// An input where they differ

  lemma TwoRows(a: ColumnRow, b: ColumnRow)
    requires !a.dropped && !b.dropped
    ensures ActiveRows([a, b]) == [a, b] && Views([a, b]) == [RowView(a), RowView(b)]
  {
    assert [a, b] == [a] + [b] && [b] == [b] + [];
    ActiveRowsCons(a, [b]);
    ActiveRowsCons(b, []);
    ViewsCons(a, [b]);
    ViewsCons(b, []);
  }

  lemma PlainInsert(ty: Typing, reg: Registry, t: Table, col: DuckColumn, attnum: int)
    requires ty.scalarId(col.duckType).Some? && col.default.None? && (t.rows == [] || t.rows[|t.rows| - 1].attnum < attnum)
    ensures InsertAttribute(ty, reg, t, col, attnum) == Some((reg, t.(rows := t.rows + [RowFor(ty, reg.types, col, attnum)])))
  {
    var row := RowFor(ty, reg.types, col, attnum);
    assert t.rows == [] ==> t.rows + [row] == [row];
  }

  lemma CreateTwo(ty: Typing, reg: Registry, a: DuckColumn, b: DuckColumn)
    requires ty.scalarId(a.duckType).Some? && ty.scalarId(b.duckType).Some? && a.default.None? && b.default.None?
    requires !EqIgnoreCase(a.name, b.name)
    ensures CreateOn(ty, reg, [a, b]) == Some((reg, Table(2, [RowFor(ty, reg.types, a, 1), RowFor(ty, reg.types, b, 2)], map[], [a, b])))
  {
    var cols, first, second := [a, b], RowFor(ty, reg.types, a, 1), RowFor(ty, reg.types, b, 2);
    assert cols[1..] == [b] && [b][1..] == [];
    assert EnsureAll(ty, reg, [b]) == Some(reg);
    var t1 := EMPTY.(rows := EMPTY.rows + [first]);
    var t2 := t1.(rows := t1.rows + [second]);
    PlainInsert(ty, reg, EMPTY, a, 1);
    PlainInsert(ty, reg, t1, b, 2);
    assert InsertFrom(ty, reg, t2, cols, 2) == Some((reg, Table(2, t2.rows, map[], cols)));
    assert InsertFrom(ty, reg, t1, cols, 1) == InsertFrom(ty, reg, t2, cols, 2);
    assert t2.rows == [first, second];
  }

  ghost predicate Plain(ty: Typing, a: ColumnDef, b: ColumnDef) {
    && ty.scalarId(a.duckType).Some? && ty.scalarId(b.duckType).Some? && a.default.None? && b.default.None?
    && !EqIgnoreCase(a.name, b.name)
  }

  /** A partitioned table of two columns, before its first partition. */
  ghost predicate IsParent(ty: Typing, a: ColumnDef, b: ColumnDef, db: Db) {
    && db.reg == Registry(map[], FIRST_USER_OID + 3) && FIRST_USER_OID in db.tables && db.tables[FIRST_USER_OID].defaults == map[]
    && ty.scalarId(a.duckType).Some? && ty.scalarId(b.duckType).Some?
    && db.tables[FIRST_USER_OID].rows == [RowFor(ty, map[], Filed([a])[0], 1), RowFor(ty, map[], Filed([b])[0], 2)]
    && db.partitions == map[FIRST_USER_OID := []] && db.primary == map[FIRST_USER_OID := PrimaryAttnums([a, b])]
  }

  lemma ParentOfTwo(ty: Typing, a: ColumnDef, b: ColumnDef) returns (db: Db)
    requires Plain(ty, a, b)
    ensures Apply(ty, NO_RELATIONS, CreatePartitioned([a, b], a.name)) == Some(db) && IsParent(ty, a, b, db)
  {
    var reg, x, y := Registry(map[], FIRST_USER_OID + 3), Filed([a])[0], Filed([b])[0];
    assert Filed([a, b]) == [x, y];
    CreateTwo(ty, reg, x, y);
    TwoRows(RowFor(ty, reg.types, x, 1), RowFor(ty, reg.types, y, 2));
    db := Apply(ty, NO_RELATIONS, CreatePartitioned([a, b], a.name)).value;
  }

  /** A column without default, as printed. */
  function PrintedColumn(ty: Typing, reg: Registry, r: ColumnRow, primary: set<int>): DuckColumn
    requires ty.reported(reg, r.typeId, r.typmod).Some?
  {
    DuckColumn(r.name, ty.reported(reg, r.typeId, r.typmod).value, r.notNull || r.attnum in primary, None)
  }

  lemma PrintedFirst(ty: Typing, reg: Registry, rows: seq<ColumnRow>, defaults: map<int, string>, primary: set<int>)
    requires rows != [] && ty.reported(reg, rows[0].typeId, rows[0].typmod).Some? && rows[0].attnum !in defaults
    requires PrintedColumns(ty, reg, rows[1..], defaults, primary).Some?
    ensures PrintedColumns(ty, reg, rows, defaults, primary)
         == Some([PrintedColumn(ty, reg, rows[0], primary)] + PrintedColumns(ty, reg, rows[1..], defaults, primary).value)
  {}

  lemma PrintedTwo(ty: Typing, reg: Registry, a: ColumnRow, b: ColumnRow, defaults: map<int, string>, primary: set<int>)
    requires ty.reported(reg, a.typeId, a.typmod).Some? && ty.reported(reg, b.typeId, b.typmod).Some? && defaults == map[]
    ensures PrintedColumns(ty, reg, [a, b], defaults, primary)
         == Some([PrintedColumn(ty, reg, a, primary), PrintedColumn(ty, reg, b, primary)])
  {
    assert [a, b][1..] == [b] && [b][1..] == [];
    PrintedFirst(ty, reg, [b], defaults, primary);
    PrintedFirst(ty, reg, [a, b], defaults, primary);
    var x, y := PrintedColumn(ty, reg, a, primary), PrintedColumn(ty, reg, b, primary);
    assert [y] + [] == [y];
    assert [x] + [y] == [x, y];
  }

  /** A view over one table always has that table's columns. */
  lemma OneUnites(ty: Typing, db: Db, child: int)
    requires child in db.tables
    ensures EntryColumns(ty, db, [child]).Some?
  {
    SameTypesUnite(ty, PhysOf(db, [child]), 0);
  }

  lemma PartitionOfTwo(ty: Typing, a: ColumnDef, b: ColumnDef, db: Db)
    requires Plain(ty, a, b) && IsParent(ty, a, b, db)
    requires var r, q := db.tables[FIRST_USER_OID].rows[0], db.tables[FIRST_USER_OID].rows[1];
             var x, y := ty.reported(db.reg, r.typeId, r.typmod), ty.reported(db.reg, q.typeId, q.typmod);
             x.Some? && y.Some? && ty.scalarId(x.value).Some? && ty.scalarId(y.value).Some?
    ensures NewPartition(ty, db, FIRST_USER_OID, 0).Some?
  {
    var r, q := db.tables[FIRST_USER_OID].rows[0], db.tables[FIRST_USER_OID].rows[1];
    TwoRows(r, q);
    PrintedTwo(ty, db.reg, r, q, db.tables[FIRST_USER_OID].defaults, PrimaryOf(db, FIRST_USER_OID));
    var cols := PartitionColumns(ty, db, FIRST_USER_OID).value;
    CreateTwo(ty, db.reg.(nextOid := db.reg.nextOid + 3), cols[0], cols[1]);
    assert cols == [cols[0], cols[1]];
    var id, db1 := db.reg.nextOid, NewRelation(ty, db, cols, Ordinary).value;
    assert db.partitions[FIRST_USER_OID][..0] + [id] + db.partitions[FIRST_USER_OID][0..] == [id];
    OneUnites(ty, db1.(internal := db1.internal + {id}, partitions := db1.partitions[FIRST_USER_OID := [id]]), id);
  }

  lemma RunOfTwo(ty: Typing, s: Statement, t: Statement)
    ensures Run(ty, NO_RELATIONS, [s]) == Execute(ty, NO_RELATIONS, s)
    ensures Run(ty, NO_RELATIONS, [s, t]) == Execute(ty, Execute(ty, NO_RELATIONS, s), t)
  {
    var first := Execute(ty, NO_RELATIONS, s);
    assert [s, t][1..] == [t] && [t][1..] == [] && [s][1..] == [];
    assert Run(ty, first, [t]) == Run(ty, Execute(ty, first, t), []);
  }

  lemma RunToPartition(duck: DuckTypes, a: ColumnDef, b: ColumnDef) returns (db: Db)
    requires Plain(Rsduck(duck), a, b)
    requires TYPE_BOOL <= ScalarTypeId(a.duckType).value < TYPE_NUMERIC && ScalarTypeId(b.duckType) == Some(TYPE_NUMERIC)
    ensures DbOk(Rsduck(duck), db) && IsParent(Rsduck(duck), a, b, db) && NewPartition(Rsduck(duck), db, FIRST_USER_OID, 0).Some?
    ensures Run(Rsduck(duck), NO_RELATIONS, [CreatePartitioned([a, b], a.name), AddPartition(FIRST_USER_OID, 0)]) ==
            NewPartition(Rsduck(duck), db, FIRST_USER_OID, 0).value
  {
    var ty, create := Rsduck(duck), CreatePartitioned([a, b], a.name);
    db := ParentOfTwo(ty, a, b);
    RunOfTwo(ty, create, AddPartition(FIRST_USER_OID, 0));
    assert DbOk(ty, db) by {
      EveryRunIsSound(ty, [create]);
    }
    BothReported(duck, a, b, db);
    PartitionOfTwo(ty, a, b, db);
  }

  /** The parent and its first partition: two columns each, the first NOT NULL only in the partition, the second
      filed differently. */
  ghost predicate FirstIsUnlike(db: Db) {
    && IsPartition(db, FIRST_USER_OID, FIRST_USER_OID + 3)
    && var p, c := db.tables[FIRST_USER_OID].rows, db.tables[FIRST_USER_OID + 3].rows;
       && |ActiveRows(p)| == |ActiveRows(c)| == |Views(p)| == |Views(c)| == 2
       && !ActiveRows(p)[0].notNull && ActiveRows(c)[0].notNull && Views(c)[1] != Views(p)[1]
  }

  /** For every primary key column `a` not declared NOT NULL and every column `b` filed as a DECIMAL without
      precision: the first partition is filed with NOT NULL on `a`, unlike its parent, and differently on `b`. */
  lemma UndeclaredAndUnprintable(duck: DuckTypes, a: ColumnDef, b: ColumnDef)
    requires Plain(Rsduck(duck), a, b) && a.primaryKey && !a.notNull
    requires TYPE_BOOL <= ScalarTypeId(a.duckType).value < TYPE_NUMERIC
    requires ScalarTypeId(b.duckType) == Some(TYPE_NUMERIC) && TypeModifier(b.duckType) == -1
    ensures FirstIsUnlike(Run(Rsduck(duck), NO_RELATIONS, [CreatePartitioned([a, b], a.name), AddPartition(FIRST_USER_OID, 0)]))
  {
    var db := RunToPartition(duck, a, b);
    TwoRows(db.tables[FIRST_USER_OID].rows[0], db.tables[FIRST_USER_OID].rows[1]);
    FirstPartitionDiffers(duck, a, b, db);
  }

  lemma BothReported(duck: DuckTypes, a: ColumnDef, b: ColumnDef, db: Db)
    requires Plain(Rsduck(duck), a, b) && IsParent(Rsduck(duck), a, b, db)
    requires TYPE_BOOL <= ScalarTypeId(a.duckType).value < TYPE_NUMERIC
    requires ScalarTypeId(b.duckType) == Some(TYPE_NUMERIC)
    ensures var ty, r, q := Rsduck(duck), db.tables[FIRST_USER_OID].rows[0], db.tables[FIRST_USER_OID].rows[1];
            var x, y := ty.reported(db.reg, r.typeId, r.typmod), ty.reported(db.reg, q.typeId, q.typmod);
            x.Some? && y.Some? && ty.scalarId(x.value).Some? && ty.scalarId(y.value).Some?
  {
    var r, q := db.tables[FIRST_USER_OID].rows[0], db.tables[FIRST_USER_OID].rows[1];
    TextOfBuiltin(db.reg, r.typeId);
    BuiltinReported(r.typeId, r.typmod);
    BuiltinIsRead(r.typeId);
    FloatReads();
    NumericPrinted(db.reg, q.typmod);
    BareDecimalIsNumeric();
    ScalarStaysScalar("DECIMAL", q.typmod);
  }

  lemma FirstPartitionDiffers(duck: DuckTypes, a: ColumnDef, b: ColumnDef, db: Db)
    requires DbOk(Rsduck(duck), db) && IsParent(Rsduck(duck), a, b, db) && NewPartition(Rsduck(duck), db, FIRST_USER_OID, 0).Some?
    requires a.primaryKey && !a.notNull && ScalarTypeId(b.duckType) == Some(TYPE_NUMERIC) && TypeModifier(b.duckType) == -1
    requires ActiveRows(db.tables[FIRST_USER_OID].rows) == db.tables[FIRST_USER_OID].rows && |Views(db.tables[FIRST_USER_OID].rows)| == 2
    ensures var db1 := NewPartition(Rsduck(duck), db, FIRST_USER_OID, 0).value;
            && IsPartition(db1, FIRST_USER_OID, FIRST_USER_OID + 3) && db1.tables[FIRST_USER_OID].rows == db.tables[FIRST_USER_OID].rows
            && var p, c := db1.tables[FIRST_USER_OID].rows, db1.tables[FIRST_USER_OID + 3].rows;
               |ActiveRows(c)| == |Views(c)| == 2 && ActiveRows(c)[0].notNull && Views(c)[1] != Views(p)[1]
  {
    PartitionColumnMatchesIff(duck, db, FIRST_USER_OID, 0, 0);
    PartitionColumnMatchesIff(duck, db, FIRST_USER_OID, 0, 1);
    NewIsPartition(Rsduck(duck), db, FIRST_USER_OID, 0);
    assert [a, b][0].primaryKey;
    assert 1 in PrimaryAttnums([a, b]);
  }

  lemma NewIsPartition(ty: Typing, db: Db, p: int, at: nat)
    requires DbOk(ty, db) && NewPartition(ty, db, p, at).Some?
    ensures IsPartition(NewPartition(ty, db, p, at).value, p, db.reg.nextOid)
  {
    var cols, mid := NewPartitionAttaches(ty, db, p, at);
    NewChild(ty, db, p, cols, at, mid, NewPartition(ty, db, p, at).value);
    InsertedMembers(db.partitions[p], at, db.reg.nextOid);
  }

  /** `CREATE TABLE t (ts TIMESTAMP PRIMARY KEY, tags DECIMAL(10,2)[])`, partitioned by `ts`. */
  lemma PartitionsMayDiffer(duck: DuckTypes)
    ensures var create := CreatePartitioned(
              [ColumnDef("ts", "TIMESTAMP", false, true, None), ColumnDef("tags", "DECIMAL(10,2)[]", false, false, None)], "ts");
            var db := Run(Rsduck(duck), NO_RELATIONS, [create, AddPartition(FIRST_USER_OID, 0)]);
            FirstIsUnlike(db)
  {
    var a, b := ColumnDef("ts", "TIMESTAMP", false, true, None), ColumnDef("tags", "DECIMAL(10,2)[]", false, false, None);
    TimestampIsRead();
    TypeTrees.DecimalListText();
    assert |Lower("ts")| != |Lower("tags")|;
    UndeclaredAndUnprintable(duck, a, b);
  }
}
