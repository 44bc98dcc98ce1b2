/** What startup makes of the tables a run leaves. */
module StartupOfRuns {
  import opened Text
  import opened TableColumns
  import opened PrintedTypes
  import opened Snapshot
  import opened CatalogTables
  import opened Recovery
  import opened StartupFixpoint
  import CatalogRuns
  import TableChanges
  import Consistency
  import NotNullFlags

  /** The catalog spells the type as DuckDB does, up to case. */
  ghost predicate Spelled(ty: Typing, reg: Registry, texts: map<int, string>, duckType: string) {
    PrintedText(ty, reg, texts, duckType).Some? && EqIgnoreCase(PrintedText(ty, reg, texts, duckType).value, duckType)
  }

  /** Loading registered types changes nothing. */
  lemma {:induction false} LoadKnownTypes(ty: Typing, reg: SoundRegistry, cols: seq<DuckColumn>)
    requires AllTyped(ty, reg.types, cols)
    ensures LoadTypes(ty, reg, cols).1 <==> AllLoad(ty, cols)
    ensures LoadTypes(ty, reg, cols).0 == reg
    decreases |cols|
  {
    if cols != [] {
      assert TypeIdIn(ty, reg.types, cols[0].duckType).Some?;
      assert AllTyped(ty, reg.types, cols[1..]);
      LoadKnownTypes(ty, reg, cols[1..]);
      assert AllLoad(ty, cols) <==> Loads(ty, cols[0].duckType) && AllLoad(ty, cols[1..]) by {
        assert cols == [cols[0]] + cols[1..];
      }
    }
  }

  /** The startup state has the table as the run left it. */
  ghost predicate HasTable(s: State, reg: Registry, rel: int, t: Table) {
    && s.cat.reg == reg && rel in s.cat.relations && s.cat.relations[rel].status == Active && s.cat.relations[rel].kind == OrdinaryTable
    && ColumnsOf(s.cat, rel) == t.rows && rel in s.objects && s.objects[rel] == Object(false, t.phys)
  }

  /** Every type loads and is spelled by the catalog as by DuckDB. */
  ghost predicate SpelledAlike(ty: Typing, reg: SoundRegistry, t: Table) {
    && t.phys != [] && AllLoad(ty, t.phys)
    && forall k :: 0 <= k < |t.phys| ==> Spelled(ty, reg, TextsOf(reg), t.phys[k].duckType)
  }

  lemma CheckKnownObject(ty: Typing, s: State, rel: int, t: Table)
    requires ColumnsOf(s.cat, rel) == t.rows && rel in s.objects && s.objects[rel] == Object(false, t.phys)
    requires AllTyped(ty, s.cat.reg.types, t.phys)
    ensures CheckObject(ty, s, rel, false) ==
            (s.cat.reg, AllLoad(ty, t.phys) && t.phys != [] && CatalogMatches(ty, s.cat.reg, TextsOf(s.cat.reg), t.rows, t.phys))
  {
    LoadKnownTypes(ty, s.cat.reg, t.phys);
  }

  lemma SpelledAlikeIsMatching(ty: Typing, reg: SoundRegistry, t: Table)
    requires TableOk(ty, reg.types, t) && TypesOk(ty, reg, TextsOf(reg))
    ensures SpelledAlike(ty, reg, t) <==> AllLoad(ty, t.phys) && t.phys != [] && CatalogMatches(ty, reg, TextsOf(reg), t.rows, t.phys)
  {
    CheckPassesIffSpelled(ty, reg, TextsOf(reg), t);
  }

  lemma CheckObjectPassesIff(ty: Typing, s: State, rel: int, t: Table)
    requires ColumnsOf(s.cat, rel) == t.rows && rel in s.objects && s.objects[rel] == Object(false, t.phys)
    requires TableOk(ty, s.cat.reg.types, t) && TypesOk(ty, s.cat.reg, TextsOf(s.cat.reg))
    ensures ObjectOk(ty, s, rel, false) <==> SpelledAlike(ty, s.cat.reg, t)
  {
    CheckKnownObject(ty, s, rel, t);
    SpelledAlikeIsMatching(ty, s.cat.reg, t);
  }

  /// A table that matches is not touched, whatever else startup finds

  ghost predicate Passes(env: Env, s: State, rel: int) {
    && rel in s.cat.relations && s.cat.relations[rel].status == Active && s.cat.relations[rel].kind == OrdinaryTable
    && ObjectOk(env.ty, s, rel, false)
  }

  lemma TableCheckLeavesOthers(env: Env, s: State, rel: int, other: int, view: bool)
    requires rel in s.cat.relations && other != rel
    ensures var t := CheckTable(env, s, other, view); rel in t.cat.relations && t.cat.relations[rel] == s.cat.relations[rel]
  {
    var (reg, ok) := CheckObject(env.ty, s, other, view);
    MarkLeavesOthers(WithReg(s, reg), rel, other);
  }

  lemma IndexCheckLeavesOthers(env: Env, s: State, rel: int, other: int)
    requires rel in s.cat.relations && other != rel && CheckIndex(env, s, other).Some?
    ensures var t := CheckIndex(env, s, other).value; rel in t.cat.relations && t.cat.relations[rel] == s.cat.relations[rel]
  {
    if IndexPresent(s, other) {
      ReconcileSettles(env, s, other);
    } else {
      MarkLeavesOthers(s, rel, other);
      MarkVectorKeepsRelations(MarkUnavailable(s, other), other, UnavailableIndex);
    }
  }

  lemma MarkLeavesOthers(s: State, rel: int, other: int)
    requires rel in s.cat.relations && other != rel
    ensures var t := MarkUnavailable(s, other); rel in t.cat.relations && t.cat.relations[rel] == s.cat.relations[rel]
  {}

  lemma MarkVectorKeepsRelations(s: State, index: int, status: BuildStatus)
    ensures MarkVector(s, index, status).cat.relations == s.cat.relations
  {}

  lemma CheckLeavesOthers(env: Env, s: State, rel: int, other: int)
    requires rel in s.cat.relations && other != rel && CheckRelation(env, s, other).Some?
    ensures var t := CheckRelation(env, s, other).value;
            rel in t.cat.relations && t.cat.relations[rel] == s.cat.relations[rel]
  {
    if other in s.cat.relations {
      match s.cat.relations[other].kind {
        case OrdinaryTable => TableCheckLeavesOthers(env, s, rel, other, false);
        case ViewRelation => TableCheckLeavesOthers(env, s, rel, other, true);
        case Index => IndexCheckLeavesOthers(env, s, rel, other);
        case _ =>
      }
    }
  }

  lemma CheckKeepsPassing(env: Env, s: State, rel: int, other: int)
    requires Passes(env, s, rel) && CheckRelation(env, s, other).Some?
    ensures Passes(env, CheckRelation(env, s, other).value, rel)
  {
    if other == rel {
      SettledRelationIsKept(env, s, rel);
    } else {
      CheckLeavesOthers(env, s, rel, other);
      CheckRelationSettles(env, s, other);
      ObjectStaysOk(env.ty, s, rel, false, CheckRelation(env, s, other).value);
    }
  }

  lemma {:induction false} ChecksKeepPassing(env: Env, s: State, rel: int, rels: seq<int>)
    requires Passes(env, s, rel) && CheckRelations(env, s, rels).Some?
    ensures Passes(env, CheckRelations(env, s, rels).value, rel)
    decreases |rels|
  {
    if rels != [] {
      CheckKeepsPassing(env, s, rel, rels[0]);
      ChecksKeepPassing(env, CheckRelation(env, s, rels[0]).value, rel, rels[1..]);
    }
  }

  lemma {:induction false} ParentsKeepPassing(env: Env, s: State, rel: int, parents: seq<int>)
    requires WellFormed(s) && Passes(env, s, rel) && forall i :: 0 <= i < |parents| ==> IsParent(s, parents[i])
    ensures Passes(env, CheckParents(env, s, parents), rel)
    decreases |parents|
  {
    if parents != [] {
      var p, rest := parents[0], parents[1..];
      var next := ValidateParent(env, s, p);
      ValidateParentSettles(env, s, p);
      LaterKeepsWellFormed(s, next);
      assert StatusKept(env, s, next, rel);
      RowLater(s.cat, next.cat, rel);
      ObjectStaysOk(env.ty, s, rel, false, next);
      forall i | 0 <= i < |rest|
        ensures IsParent(next, rest[i])
      {
        assert rest[i] == parents[i + 1];
        RowLater(s.cat, next.cat, rest[i]);
      }
      ParentsKeepPassing(env, next, rel, rest);
    }
  }

  lemma StartupKeepsPassing(env: Env, h: Header, s: State, rel: int)
    requires EnvOk(env) && WellFormed(s) && Passes(env, s, rel) && Startup(env, h, s).Some?
    ensures Passes(env, Startup(env, h, s).value, rel)
  {
    var s1 := RecoverJournal(env, s);
    assert Passes(env, s1, rel) && WellFormed(s1);
    var rels := env.listed(ActiveRelations(s1.cat));
    var s2 := CheckRelations(env, s1, rels).value;
    ChecksKeepPassing(env, s1, rel, rels);
    CheckRelationsSettle(env, s1, rels);
    LaterKeepsWellFormed(s1, s2);
    var parents := env.listed(ActiveParents(s2.cat));
    forall i | 0 <= i < |parents|
      ensures IsParent(s2, parents[i])
    {
      assert parents[i] in ActiveParents(s2.cat);
    }
    ParentsKeepPassing(env, s2, rel, parents);
  }

  /// Startup on the tables a run leaves

  /** Registered types keep their spelling. */
  lemma SpelledAlikeStays(ty: Typing, a: SoundRegistry, b: SoundRegistry, t: Table)
    requires Grows(a, b) && AllTyped(ty, a.types, t.phys) && TypesOk(ty, a, TextsOf(a))
    ensures SpelledAlike(ty, b, t) <==> SpelledAlike(ty, a, t)
  {
    TextsGrow(a, b);
    forall k | 0 <= k < |t.phys|
      ensures PrintedText(ty, b, TextsOf(b), t.phys[k].duckType) == PrintedText(ty, a, TextsOf(a), t.phys[k].duckType)
    {
      assert TypeIdIn(ty, a.types, t.phys[k].duckType).Some?;
      KnownTypeHasText(ty, a, TextsOf(a), t.phys[k].duckType);
    }
  }

  /** What follows the journal's recovery. */
  lemma PhasesAreLater(env: Env, s: State)
    requires EnvOk(env) && WellFormed(s) && Reconciled(env, s).Some?
    ensures var t := Reconciled(env, s).value; CatalogLater(s.cat, t.cat) && forall r :: ObjectLater(s, t, r)
  {
    var mid := CheckRelations(env, s, env.listed(ActiveRelations(s.cat))).value;
    AllRelationsSettle(env, s);
    LaterKeepsWellFormed(s, mid);
    AllParentsSettle(env, mid);
    var last := CheckParents(env, mid, env.listed(ActiveParents(mid.cat)));
    LaterTrans(s, mid, last);
    assert forall r :: ObjectLater(s, last, r) ==> ObjectLater(s, Refresh(env, last), r);
  }

  lemma StartIsLater(env: Env, h: Header, s: State)
    requires EnvOk(env) && WellFormed(s) && Startup(env, h, s).Some?
    ensures var t := Startup(env, h, s).value;
            && CatalogLater(s.cat, t.cat) && (forall r :: ObjectLater(s, t, r)) && forall rel :: RelationSettled(env, t, rel)
  {
    var s1 := RecoverJournal(env, s);
    PhasesAreLater(env, s1);
    StartupSettles(env, h, s);
    assert forall r :: ObjectLater(s1, Startup(env, h, s).value, r) ==> ObjectLater(s, Startup(env, h, s).value, r);
  }

  lemma AvailableMatches(env: Env, s: State, t: State, rel: int, table: Table)
    requires HasTable(s, s.cat.reg, rel, table) && CatalogLater(s.cat, t.cat) && ObjectLater(s, t, rel)
    requires RelationSettled(env, t, rel) && rel in t.cat.relations && t.cat.relations[rel].status == Active
    requires TableOk(env.ty, s.cat.reg.types, table) && TypesOk(env.ty, t.cat.reg, TextsOf(t.cat.reg))
    ensures SpelledAlike(env.ty, t.cat.reg, table)
  {
    RowLater(s.cat, t.cat, rel);
    GrowthKeepsAligned(env.ty, s.cat.reg, t.cat.reg, table);
    CheckObjectPassesIff(env.ty, t, rel, table);
  }

  /** After any run of table statements, a start that succeeds keeps a table available exactly if every one of
      its types loads and is spelled by the catalog as by DuckDB, whatever else it finds; a FLOAT column, called
      REAL there, is enough to lose the table. */
  lemma TableStaysAvailableIff(env: Env, h: Header, duck: DuckTypes, ss: seq<CatalogRuns.Statement>, rel: int, s: State)
    requires env.ty == Rsduck(duck) && EnvOk(env) && WellFormed(s) && Startup(env, h, s).Some?
    requires var db := CatalogRuns.Run(env.ty, CatalogRuns.NO_RELATIONS, ss);
             NotNullFlags.IsTable(db, rel) && HasTable(s, db.reg, rel, db.tables[rel])
    ensures var table, t := CatalogRuns.Run(env.ty, CatalogRuns.NO_RELATIONS, ss).tables[rel], Startup(env, h, s).value;
            && rel in t.cat.relations
            && (t.cat.relations[rel].status == Active <==> SpelledAlike(env.ty, s.cat.reg, table))
  {
    var db, t := CatalogRuns.Run(env.ty, CatalogRuns.NO_RELATIONS, ss), Startup(env, h, s).value;
    CatalogRuns.EveryRunIsSound(env.ty, ss);
    assert Consistency.RelationOk(env.ty, db, rel);
    TextsOfAreOk(env.ty, s.cat.reg);
    TextsOfAreOk(env.ty, t.cat.reg);
    CheckObjectPassesIff(env.ty, s, rel, db.tables[rel]);
    StartIsLater(env, h, s);
    SpelledAlikeStays(env.ty, s.cat.reg, t.cat.reg, db.tables[rel]);
    if SpelledAlike(env.ty, s.cat.reg, db.tables[rel]) {
      StartupKeepsPassing(env, h, s, rel);
    } else if t.cat.relations[rel].status == Active {
      AvailableMatches(env, s, t, rel, db.tables[rel]);
    }
  }

  /** Every active relation is a table the run left. */
  ghost predicate Left(s: State, db: TableChanges.Db) {
    forall r :: r in s.cat.relations && s.cat.relations[r].status == Active ==> NotNullFlags.IsTable(db, r) && HasTable(s, db.reg, r, db.tables[r])
  }

  /** Such a state starts with nothing marked unavailable exactly if DuckDB and the catalog spell every type of
      every table alike. */
  lemma NothingIsLostIff(env: Env, h: Header, duck: DuckTypes, ss: seq<CatalogRuns.Statement>, s: State)
    requires env.ty == Rsduck(duck) && EnvOk(env) && WellFormed(s) && Startup(env, h, s).Some?
    requires Left(s, CatalogRuns.Run(env.ty, CatalogRuns.NO_RELATIONS, ss))
    ensures var db, t := CatalogRuns.Run(env.ty, CatalogRuns.NO_RELATIONS, ss), Startup(env, h, s).value;
            (forall r :: r in s.cat.relations && s.cat.relations[r].status == Active ==>
                           r in t.cat.relations && t.cat.relations[r].status == Active)
            <==> forall r :: r in s.cat.relations && s.cat.relations[r].status == Active ==> SpelledAlike(env.ty, s.cat.reg, db.tables[r])
  {
    forall r | r in s.cat.relations && s.cat.relations[r].status == Active
      ensures r in Startup(env, h, s).value.cat.relations
      ensures Startup(env, h, s).value.cat.relations[r].status == Active <==>
              SpelledAlike(env.ty, s.cat.reg, CatalogRuns.Run(env.ty, CatalogRuns.NO_RELATIONS, ss).tables[r])
    {
      TableStaysAvailableIff(env, h, duck, ss, r, s);
    }
  }
}
