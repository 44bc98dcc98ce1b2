/** Vector batches: src/db/vector.rs. */
module VectorBatch {
  import opened Text

  /// Rows and requests

  datatype Key = Key(tenant: int, agent: int, memory: int)

  /** A FLOAT: finite, or an infinity or NaN. */
  datatype Float = Finite(value: real) | NonFinite

  datatype Row = Row(version: int, hash: string, embedding: Option<seq<Float>>)

  datatype Item = Item(key: Key, version: int, hash: string, embedding: seq<Float>)

  datatype Error =
    | IndexNotActive | VectorSpaceNotFound | InvalidBatchSize | DuplicateVectorKey | InvalidSourceVersion
    | InvalidContentHash | DimensionMismatch | InvalidVectorValue | StaleSourceVersion | SourceVersionConflict

  datatype Mutation = Mutation(applied: nat, idempotent: nat, vectorCount: nat)

  type Rows = map<Key, Row>

  const MAX_BATCH := 1000

  /// Validation

  predicate AllZero(v: seq<Float>) { forall i :: 0 <= i < |v| ==> v[i] == Finite(0.0) }

  predicate AllFinite(v: seq<Float>) { forall i :: 0 <= i < |v| ==> v[i].Finite? }

  function BatchError(space: string, size: nat): Option<Error> {
    if Trim(space) == "" then Some(VectorSpaceNotFound)
    else if size == 0 || size > MAX_BATCH then Some(InvalidBatchSize)
    else None
  }

  /** What is wrong with one item on its own. */
  function ItemError(item: Item, dimension: nat, cosine: bool): Option<Error> {
    if item.version < 0 then Some(InvalidSourceVersion)
    else if Trim(item.hash) == "" then Some(InvalidContentHash)
    else if |item.embedding| != dimension then Some(DimensionMismatch)
    else if !AllFinite(item.embedding) then Some(InvalidVectorValue)
    else if cosine && AllZero(item.embedding) then Some(InvalidVectorValue)
    else None
  }

  predicate ValidItem(item: Item, dimension: nat, cosine: bool) {
    && item.version >= 0 && Trim(item.hash) != "" && |item.embedding| == dimension
    && (forall k :: 0 <= k < |item.embedding| ==> item.embedding[k].Finite?)
    && (cosine ==> exists k :: 0 <= k < |item.embedding| && item.embedding[k] != Finite(0.0))
  }

  predicate Repeats(items: seq<Item>, i: nat)
    requires i < |items|
  {
    exists j :: 0 <= j < i && items[j].key == items[i].key
  }

  /** The items before are valid and have keys of their own, this one is not or has not. */
  ghost predicate FirstInvalid(items: seq<Item>, i: nat, dimension: nat, cosine: bool)
    requires i < |items|
  {
    && DistinctKeys(items[..i]) && (forall j :: 0 <= j < i ==> ValidItem(items[j], dimension, cosine))
    && (Repeats(items, i) || !ValidItem(items[i], dimension, cosine))
  }

  /** The error names what is wrong with the item: a repeated key first, then version, hash, dimension, values. */
  ghost predicate BlamesItem(e: Error, items: seq<Item>, i: nat, dimension: nat)
    requires i < |items|
  {
    var item := items[i];
    match e
    case DuplicateVectorKey => Repeats(items, i)
    case InvalidSourceVersion => !Repeats(items, i) && item.version < 0
    case InvalidContentHash => !Repeats(items, i) && item.version >= 0 && Trim(item.hash) == ""
    case DimensionMismatch => !Repeats(items, i) && item.version >= 0 && Trim(item.hash) != "" && |item.embedding| != dimension
    case InvalidVectorValue => !Repeats(items, i) && item.version >= 0 && Trim(item.hash) != "" && |item.embedding| == dimension
    case _ => false
  }

  predicate DistinctKeys(items: seq<Item>) { forall i, j :: 0 <= i < j < |items| ==> items[i].key != items[j].key }

  function KeysOf(items: seq<Item>): (r: set<Key>)
    ensures forall k :: k in r <==> exists i :: 0 <= i < |items| && items[i].key == k
  {
    set i | 0 <= i < |items| :: items[i].key
  }

  lemma ItemErrorBlames(items: seq<Item>, i: nat, dimension: nat, cosine: bool)
    requires i < |items| && DistinctKeys(items[..i]) && forall j :: 0 <= j < i ==> ValidItem(items[j], dimension, cosine)
    requires items[i].key !in KeysOf(items[..i]) && ItemError(items[i], dimension, cosine).Some?
    ensures FirstInvalid(items, i, dimension, cosine) && BlamesItem(ItemError(items[i], dimension, cosine).value, items, i, dimension)
  {
    forall j | 0 <= j < i
      ensures items[j].key != items[i].key
    {
      assert items[..i][j].key in KeysOf(items[..i]);
    }
  }

  /** `validate_upsert_request`: accepts exactly the batches of a permitted size whose keys differ and
      whose items are each valid. */
  method ValidateUpsertRequest(space: string, items: seq<Item>, dimension: nat, cosine: bool) returns (error: Option<Error>)
    ensures error.None? <==>
            && Trim(space) != "" && 1 <= |items| <= 1000 && DistinctKeys(items)
            && forall i :: 0 <= i < |items| ==> ValidItem(items[i], dimension, cosine)
    ensures error.Some? ==> match error.value
      case VectorSpaceNotFound => Trim(space) == ""
      case InvalidBatchSize => Trim(space) != "" && (|items| == 0 || |items| > 1000)
      case e => Trim(space) != "" && exists i :: 0 <= i < |items| && FirstInvalid(items, i, dimension, cosine) && BlamesItem(e, items, i, dimension)
  {
    error := BatchError(space, |items|);
    if error.Some? {
      return;
    }
    var keys: set<Key> := {};
    for i := 0 to |items|
      invariant keys == KeysOf(items[..i]) && DistinctKeys(items[..i])
      invariant forall j :: 0 <= j < i ==> ValidItem(items[j], dimension, cosine)
    {
      var item := items[i];
      assert items[..i + 1] == items[..i] + [item];
      if item.key in keys {
        var j :| 0 <= j < i && items[..i][j].key == item.key;
        assert items[j].key == items[i].key;
        assert FirstInvalid(items, i, dimension, cosine) && BlamesItem(DuplicateVectorKey, items, i, dimension);
        return Some(DuplicateVectorKey);
      }
      assert DistinctKeys(items[..i + 1]);
      keys := keys + {item.key};
      assert keys == KeysOf(items[..i + 1]);
      if ItemError(item, dimension, cosine).Some? {
        ItemErrorBlames(items, i, dimension, cosine);
        return ItemError(item, dimension, cosine);
      }
    }
    assert items[..|items|] == items;
  }

  /** `validate_delete_request` */
  method ValidateDeleteRequest(space: string, items: seq<Item>) returns (error: Option<Error>)
    ensures error.None? <==>
            && Trim(space) != "" && 1 <= |items| <= 1000 && DistinctKeys(items)
            && forall i :: 0 <= i < |items| ==> items[i].version >= 0
    ensures error.Some? ==> match error.value
      case VectorSpaceNotFound => Trim(space) == ""
      case InvalidBatchSize => Trim(space) != "" && (|items| == 0 || |items| > 1000)
      case DuplicateVectorKey => Trim(space) != "" && !DistinctKeys(items)
      case InvalidSourceVersion => Trim(space) != "" && exists i :: 0 <= i < |items| && items[i].version < 0
      case _ => false
  {
    error := BatchError(space, |items|);
    if error.Some? {
      return;
    }
    var keys: set<Key> := {};
    for i := 0 to |items|
      invariant keys == KeysOf(items[..i]) && DistinctKeys(items[..i])
      invariant forall j :: 0 <= j < i ==> items[j].version >= 0
    {
      var item := items[i];
      assert items[..i + 1] == items[..i] + [item];
      if item.key in keys {
        var j :| 0 <= j < i && items[..i][j].key == item.key;
        assert items[j].key == items[i].key;
        return Some(DuplicateVectorKey);
      }
      assert DistinctKeys(items[..i + 1]);
      keys := keys + {item.key};
      assert keys == KeysOf(items[..i + 1]);
      if item.version < 0 {
        return Some(InvalidSourceVersion);
      }
    }
    assert items[..|items|] == items;
  }

  /// What a batch means, item by item and independent of order

  predicate IsStale(rows: Rows, item: Item) { item.key in rows && rows[item.key].version > item.version }

  predicate IsConflict(rows: Rows, item: Item) {
    item.key in rows && rows[item.key].version == item.version && rows[item.key].hash != item.hash
  }

  predicate IsNewer(rows: Rows, item: Item) { item.key !in rows || rows[item.key].version < item.version }

  function RowOf(item: Item): Row { Row(item.version, item.hash, Some(item.embedding)) }

  /** The batch is accepted when no item is stale or in conflict. */
  predicate Accepts(rows: Rows, items: seq<Item>) {
    forall i :: 0 <= i < |items| ==> !IsStale(rows, items[i]) && !IsConflict(rows, items[i])
  }

  function NewerKeys(rows: Rows, items: seq<Item>): (r: set<Key>)
    ensures forall k :: k in r <==> exists i :: 0 <= i < |items| && IsNewer(rows, items[i]) && items[i].key == k
  {
    set i | 0 <= i < |items| && IsNewer(rows, items[i]) :: items[i].key
  }

  /** `after` is `rows` with exactly the newer items written, each with its version, hash and vector. */
  ghost predicate Upserted(rows: Rows, items: seq<Item>, after: Rows) {
    && (forall i :: 0 <= i < |items| && IsNewer(rows, items[i]) ==>
          items[i].key in after && after[items[i].key] == Row(items[i].version, items[i].hash, Some(items[i].embedding)))
    && (forall k :: k !in NewerKeys(rows, items) ==> (k in after <==> k in rows) && (k in rows ==> after[k] == rows[k]))
  }

  /// The batch as a loop

  datatype Outcome = Done(rows: Rows, applied: nat, idempotent: nat) | Refused(error: Error)

  function UpsertOne(o: Outcome, item: Item): Outcome
    requires o.Done?
  {
    if IsStale(o.rows, item) then Refused(StaleSourceVersion)
    else if IsConflict(o.rows, item) then Refused(SourceVersionConflict)
    else if IsNewer(o.rows, item) then Done(o.rows[item.key := RowOf(item)], o.applied + 1, o.idempotent)
    else Done(o.rows, o.applied, o.idempotent + 1)
  }

  function UpsertItems(o: Outcome, items: seq<Item>): Outcome
    decreases |items|
  {
    if o.Refused? || items == [] then o else UpsertItems(UpsertOne(o, items[0]), items[1..])
  }

  lemma DistinctTail(items: seq<Item>)
    requires items != [] && DistinctKeys(items)
    ensures DistinctKeys(items[1..]) && forall i :: 0 <= i < |items[1..]| ==> items[1..][i] == items[i + 1] && items[1..][i].key != items[0].key
  {}

  /** An item is judged the same after another key was written. */
  lemma OtherKeysUnaffected(rows: Rows, key: Key, row: Row, item: Item)
    requires item.key != key
    ensures IsStale(rows[key := row], item) == IsStale(rows, item) && IsConflict(rows[key := row], item) == IsConflict(rows, item)
    ensures IsNewer(rows[key := row], item) == IsNewer(rows, item)
  {}

  lemma NewerKeysOfTail(rows: Rows, items: seq<Item>, row: Row)
    requires items != [] && DistinctKeys(items)
    ensures items[0].key !in NewerKeys(rows[items[0].key := row], items[1..])
    ensures NewerKeys(rows, items) ==
            (if IsNewer(rows, items[0]) then {items[0].key} else {}) + NewerKeys(rows[items[0].key := row], items[1..])
  {
    DistinctTail(items);
    var later := rows[items[0].key := row];
    forall i | 0 <= i < |items[1..]|
      ensures IsNewer(later, items[1..][i]) == IsNewer(rows, items[i + 1])
    {
      OtherKeysUnaffected(rows, items[0].key, row, items[1..][i]);
    }
    forall k
      ensures k in NewerKeys(rows, items) <==> (IsNewer(rows, items[0]) && k == items[0].key) || k in NewerKeys(later, items[1..])
    {
      if k in NewerKeys(rows, items) {
        var i :| 0 <= i < |items| && IsNewer(rows, items[i]) && items[i].key == k;
        if i > 0 {
          assert items[1..][i - 1] == items[i];
        }
      }
      if k in NewerKeys(later, items[1..]) {
        var i :| 0 <= i < |items[1..]| && IsNewer(later, items[1..][i]) && items[1..][i].key == k;
        assert items[i + 1].key == k;
      }
    }
  }

  /** What the loop promises about a batch met with `applied` and `idempotent` counted already. */
  ghost predicate Meant(rows: Rows, applied: nat, idempotent: nat, items: seq<Item>, r: Outcome) {
    && (r.Done? <==> Accepts(rows, items))
    && (r.Done? ==> Upserted(rows, items, r.rows) && r.applied == applied + |NewerKeys(rows, items)|
                    && r.applied + r.idempotent == applied + idempotent + |items|)
  }

  lemma MeantFirst(rows: Rows, applied: nat, idempotent: nat, items: seq<Item>, row: Row, r: Outcome)
    requires items != [] && DistinctKeys(items) && !IsStale(rows, items[0]) && !IsConflict(rows, items[0])
    requires row == (if IsNewer(rows, items[0]) then RowOf(items[0]) else rows[items[0].key])
    requires var new_ := if IsNewer(rows, items[0]) then 1 else 0;
             Meant(rows[items[0].key := row], applied + new_, idempotent + 1 - new_, items[1..], r)
    ensures Meant(rows, applied, idempotent, items, r)
  {
    var later := rows[items[0].key := row];
    AcceptsFirst(rows, items, row);
    NewerKeysOfTail(rows, items, row);
    assert |NewerKeys(rows, items)| == (if IsNewer(rows, items[0]) then 1 else 0) + |NewerKeys(later, items[1..])|;
    if r.Done? {
      UpsertedFirst(rows, items, row, r.rows);
    }
  }

  /** The loop does what the batch means: it refuses exactly the batches with a stale or conflicting item,
      and otherwise writes exactly the newer items and counts every item once. */
  lemma {:induction false} UpsertItemsIs(rows: Rows, applied: nat, idempotent: nat, items: seq<Item>)
    requires DistinctKeys(items)
    ensures Meant(rows, applied, idempotent, items, UpsertItems(Done(rows, applied, idempotent), items))
    decreases |items|
  {
    if items == [] {
      assert NewerKeys(rows, items) == {};
    } else {
      var item, rest := items[0], items[1..];
      var o := UpsertOne(Done(rows, applied, idempotent), item);
      if o.Refused? {
        RefusedEnds(o, rest);
      } else {
        DistinctTail(items);
        var row := if IsNewer(rows, item) then RowOf(item) else rows[item.key];
        assert o.rows == rows[item.key := row];
        UpsertItemsIs(o.rows, o.applied, o.idempotent, rest);
        MeantFirst(rows, applied, idempotent, items, row, UpsertItems(o, rest));
      }
    }
  }

  predicate BlamesRow(e: Error, rows: Rows, item: Item) {
    match e
    case StaleSourceVersion => IsStale(rows, item)
    case SourceVersionConflict => IsConflict(rows, item)
    case _ => false
  }

  ghost predicate BlamesRows(e: Error, rows: Rows, items: seq<Item>) { exists i :: 0 <= i < |items| && BlamesRow(e, rows, items[i]) }

  /** A refused batch has an item with the fault that is reported. */
  lemma {:induction false} RefusalsBlame(rows: Rows, applied: nat, idempotent: nat, items: seq<Item>)
    requires DistinctKeys(items)
    ensures var r := UpsertItems(Done(rows, applied, idempotent), items);
            r.Refused? ==> BlamesRows(r.error, rows, items)
    decreases |items|
  {
    if items != [] {
      var item, rest := items[0], items[1..];
      var o := UpsertOne(Done(rows, applied, idempotent), item);
      if o.Refused? {
        RefusedEnds(o, rest);
        assert BlamesRow(o.error, rows, items[0]);
      } else {
        DistinctTail(items);
        RefusalsBlame(o.rows, o.applied, o.idempotent, rest);
        var r := UpsertItems(o, rest);
        if r.Refused? {
          var i :| 0 <= i < |rest| && BlamesRow(r.error, o.rows, rest[i]);
          if IsNewer(rows, item) {
            OtherKeysUnaffected(rows, item.key, RowOf(item), rest[i]);
          }
          assert BlamesRow(r.error, rows, items[i + 1]);
        }
      }
    }
  }

  lemma RefusedEnds(o: Outcome, items: seq<Item>)
    requires o.Refused?
    ensures UpsertItems(o, items) == o
  {}

  lemma AcceptsFirst(rows: Rows, items: seq<Item>, row: Row)
    requires items != [] && DistinctKeys(items) && !IsStale(rows, items[0]) && !IsConflict(rows, items[0])
    ensures Accepts(rows, items) <==> Accepts(rows[items[0].key := row], items[1..])
  {
    DistinctTail(items);
    var later := rows[items[0].key := row];
    forall i | 0 <= i < |items[1..]|
      ensures IsStale(later, items[1..][i]) == IsStale(rows, items[i + 1]) && IsConflict(later, items[1..][i]) == IsConflict(rows, items[i + 1])
    {
      OtherKeysUnaffected(rows, items[0].key, row, items[1..][i]);
    }
    if Accepts(later, items[1..]) {
      forall i | 0 <= i < |items|
        ensures !IsStale(rows, items[i]) && !IsConflict(rows, items[i])
      {
        assert i > 0 ==> items[i] == items[1..][i - 1];
      }
    }
  }

  lemma UpsertedFirst(rows: Rows, items: seq<Item>, row: Row, after: Rows)
    requires items != [] && DistinctKeys(items)
    requires row == (if IsNewer(rows, items[0]) then RowOf(items[0]) else rows[items[0].key])
    requires Upserted(rows[items[0].key := row], items[1..], after)
    ensures Upserted(rows, items, after)
  {
    var later := rows[items[0].key := row];
    NewerKeysOfTail(rows, items, row);
    forall i | 0 <= i < |items| && IsNewer(rows, items[i])
      ensures items[i].key in after && after[items[i].key] == RowOf(items[i])
    {
      if i > 0 {
        OtherKeysUnaffected(rows, items[0].key, row, items[i]);
        assert items[1..][i - 1] == items[i];
      }
    }
  }

  /// Order does not matter

  lemma {:induction false} OncePerBatch(items: seq<Item>, x: Item)
    requires DistinctKeys(items)
    ensures multiset(items)[x] <= 1
  {
    if items != [] {
      DistinctTail(items);
      OncePerBatch(items[1..], x);
      assert items == [items[0]] + items[1..];
      if x == items[0] {
        assert x !in items[1..];
      }
    }
  }

  lemma TwiceCounts(items: seq<Item>, i: nat, j: nat)
    requires i < j < |items| && items[i] == items[j]
    ensures multiset(items)[items[i]] >= 2
  {
    assert items == items[..j] + items[j..];
    assert items[i] == items[..j][i] && items[j] == items[j..][0];
    assert items[i] in multiset(items[..j]) && items[i] in multiset(items[j..]);
  }

  lemma PermutationIsDistinct(items: seq<Item>, perm: seq<Item>)
    requires DistinctKeys(items) && multiset(perm) == multiset(items)
    ensures DistinctKeys(perm)
  {
    forall i, j | 0 <= i < j < |perm|
      ensures perm[i].key != perm[j].key
    {
      assert perm[i] in multiset(items) && perm[j] in multiset(items);
      OncePerBatch(items, perm[i]);
      if perm[i] == perm[j] {
        TwiceCounts(perm, i, j);
      }
    }
  }

  lemma SameItems(items: seq<Item>, perm: seq<Item>, i: nat) returns (j: nat)
    requires multiset(perm) == multiset(items) && i < |items|
    ensures j < |perm| && perm[j] == items[i]
  {
    assert items[i] in multiset(perm);
    j :| 0 <= j < |perm| && perm[j] == items[i];
  }

  lemma SameItemsAccepted(rows: Rows, items: seq<Item>, perm: seq<Item>)
    requires multiset(perm) == multiset(items) && Accepts(rows, perm)
    ensures Accepts(rows, items) && NewerKeys(rows, items) <= NewerKeys(rows, perm)
  {
    forall i | 0 <= i < |items|
      ensures !IsStale(rows, items[i]) && !IsConflict(rows, items[i])
      ensures IsNewer(rows, items[i]) ==> items[i].key in NewerKeys(rows, perm)
    {
      var j := SameItems(items, perm, i);
    }
  }

  /** Any permutation of a valid batch is accepted or refused alike, and leaves the same rows and counts. */
  lemma OrderDoesNotMatter(rows: Rows, items: seq<Item>, perm: seq<Item>)
    requires DistinctKeys(items) && multiset(perm) == multiset(items)
    ensures var (r, q) := (UpsertItems(Done(rows, 0, 0), items), UpsertItems(Done(rows, 0, 0), perm));
            (q.Done? <==> r.Done?) && (r.Done? ==> q == r)
  {
    PermutationIsDistinct(items, perm);
    UpsertItemsIs(rows, 0, 0, items);
    UpsertItemsIs(rows, 0, 0, perm);
    if Accepts(rows, items) {
      SameItemsAccepted(rows, perm, items);
    }
    if Accepts(rows, perm) {
      SameItemsAccepted(rows, items, perm);
      assert |perm| == |multiset(perm)| == |items|;
      SameUpserted(rows, items, perm, UpsertItems(Done(rows, 0, 0), items).rows, UpsertItems(Done(rows, 0, 0), perm).rows);
    }
  }

  lemma SameUpserted(rows: Rows, items: seq<Item>, perm: seq<Item>, a: Rows, b: Rows)
    requires multiset(perm) == multiset(items) && NewerKeys(rows, items) == NewerKeys(rows, perm)
    requires Upserted(rows, items, a) && Upserted(rows, perm, b)
    ensures a == b
  {
    forall k
      ensures (k in a <==> k in b) && (k in a ==> a[k] == b[k])
    {
      if k in NewerKeys(rows, items) {
        var i :| 0 <= i < |items| && IsNewer(rows, items[i]) && items[i].key == k;
        var j := SameItems(items, perm, i);
        assert a[k] == RowOf(items[i]) && b[k] == RowOf(perm[j]);
      }
    }
  }

  /// Replay

  lemma SameVersionsApplyNothing(after: Rows, items: seq<Item>)
    requires DistinctKeys(items)
    requires forall i :: 0 <= i < |items| ==>
               items[i].key in after && after[items[i].key].version == items[i].version && after[items[i].key].hash == items[i].hash
    ensures UpsertItems(Done(after, 0, 0), items) == Done(after, 0, |items|)
  {
    UpsertItemsIs(after, 0, 0, items);
    var r := UpsertItems(Done(after, 0, 0), items);
    assert NewerKeys(after, items) == {};
    assert Accepts(after, items);
    assert Upserted(after, items, r.rows);
    assert r.rows == after;
  }

  /** Sending an accepted batch again applies nothing and changes nothing. */
  lemma ReplayIsIdempotent(rows: Rows, items: seq<Item>)
    requires DistinctKeys(items) && UpsertItems(Done(rows, 0, 0), items).Done?
    ensures var after := UpsertItems(Done(rows, 0, 0), items).rows;
            UpsertItems(Done(after, 0, 0), items) == Done(after, 0, |items|)
  {
    var after := UpsertItems(Done(rows, 0, 0), items).rows;
    UpsertItemsIs(rows, 0, 0, items);
    forall i | 0 <= i < |items|
      ensures items[i].key in after && after[items[i].key].version == items[i].version && after[items[i].key].hash == items[i].hash
    {
      WrittenOrKept(rows, items, after, i);
    }
    SameVersionsApplyNothing(after, items);
  }

  lemma WrittenOrKept(rows: Rows, items: seq<Item>, after: Rows, i: nat)
    requires DistinctKeys(items) && Accepts(rows, items) && Upserted(rows, items, after) && i < |items|
    ensures items[i].key in after && after[items[i].key].version == items[i].version && after[items[i].key].hash == items[i].hash
  {
    if !IsNewer(rows, items[i]) {
      forall j | 0 <= j < |items| && items[j].key == items[i].key
        ensures j == i
      {
        assert !(j < i) && !(i < j);
      }
      assert items[i].key !in NewerKeys(rows, items);
    }
  }

  /** No key disappears and no version goes down. */
  lemma UpsertIsMonotone(rows: Rows, items: seq<Item>, key: Key)
    requires DistinctKeys(items) && UpsertItems(Done(rows, 0, 0), items).Done? && key in rows
    ensures var after := UpsertItems(Done(rows, 0, 0), items).rows; key in after && after[key].version >= rows[key].version
  {
    UpsertItemsIs(rows, 0, 0, items);
    if key in NewerKeys(rows, items) {
      var i :| 0 <= i < |items| && IsNewer(rows, items[i]) && items[i].key == key;
    }
  }

  /// Deletes

  function WithoutKey(rows: Rows, key: Key): (r: Rows)
    ensures forall k :: (k in r <==> k in rows && k != key) && (k in r ==> r[k] == rows[k])
  {
    map k | k in rows && k != key :: rows[k]
  }

  function DeleteOne(o: Outcome, item: Item): Outcome
    requires o.Done?
  {
    if IsStale(o.rows, item) then Refused(StaleSourceVersion)
    else if item.key in o.rows then Done(WithoutKey(o.rows, item.key), o.applied + 1, o.idempotent)
    else Done(o.rows, o.applied, o.idempotent + 1)
  }

  function DeleteItems(o: Outcome, items: seq<Item>): Outcome
    decreases |items|
  {
    if o.Refused? || items == [] then o else DeleteItems(DeleteOne(o, items[0]), items[1..])
  }

  predicate NoneStale(rows: Rows, items: seq<Item>) { forall i :: 0 <= i < |items| ==> !IsStale(rows, items[i]) }

  /** The keys of the batch that are stored. */
  function PresentKeys(rows: Rows, items: seq<Item>): (r: set<Key>)
    ensures forall k :: k in r <==> k in rows && k in KeysOf(items)
  {
    set k | k in KeysOf(items) && k in rows :: k
  }

  lemma KeysOfTail(items: seq<Item>)
    requires items != [] && DistinctKeys(items)
    ensures KeysOf(items) == {items[0].key} + KeysOf(items[1..]) && items[0].key !in KeysOf(items[1..])
  {
    DistinctTail(items);
    assert forall i :: 1 <= i < |items| ==> items[i] == items[1..][i - 1];
  }

  lemma NoneStaleFirst(rows: Rows, items: seq<Item>)
    requires items != [] && DistinctKeys(items)
    ensures NoneStale(rows, items) <==> !IsStale(rows, items[0]) && NoneStale(WithoutKey(rows, items[0].key), items[1..])
  {
    DistinctTail(items);
    assert forall i :: 1 <= i < |items| ==> items[i] == items[1..][i - 1];
  }

  /** `after` is `rows` without exactly the batch's keys. */
  ghost predicate Deleted(rows: Rows, items: seq<Item>, after: Rows) {
    forall k :: (k in after <==> k in rows && k !in KeysOf(items)) && (k in after ==> after[k] == rows[k])
  }

  ghost predicate DeleteMeant(rows: Rows, applied: nat, idempotent: nat, items: seq<Item>, r: Outcome) {
    && (r.Done? <==> NoneStale(rows, items))
    && (r.Done? ==> Deleted(rows, items, r.rows) && r.applied == applied + |PresentKeys(rows, items)|
                    && r.applied + r.idempotent == applied + idempotent + |items|)
  }

  lemma OneMoreKey(whole: set<Key>, k: Key, rest: set<Key>)
    requires k !in rest && forall x :: x in whole <==> x == k || x in rest
    ensures |whole| == 1 + |rest|
  {
    assert whole == {k} + rest;
  }

  lemma SameKeys(a: set<Key>, b: set<Key>)
    requires forall x :: x in a <==> x in b
    ensures |a| == |b|
  {
    assert a == b;
  }

  lemma PresentKeysFirst(rows: Rows, items: seq<Item>)
    requires items != [] && DistinctKeys(items)
    ensures |PresentKeys(rows, items)| == (if items[0].key in rows then 1 else 0) + |PresentKeys(WithoutKey(rows, items[0].key), items[1..])|
  {
    var key := items[0].key;
    var whole, rest := PresentKeys(rows, items), PresentKeys(WithoutKey(rows, key), items[1..]);
    KeysOfTail(items);
    forall x
      ensures x in whole <==> (x == key && key in rows) || x in rest
    {
    }
    if key in rows {
      OneMoreKey(whole, key, rest);
    } else {
      SameKeys(whole, rest);
    }
  }

  lemma DeletedFirst(rows: Rows, items: seq<Item>, after: Rows)
    requires items != [] && DistinctKeys(items) && Deleted(WithoutKey(rows, items[0].key), items[1..], after)
    ensures Deleted(rows, items, after)
  {
    KeysOfTail(items);
  }

  lemma DeleteMeantFirst(rows: Rows, applied: nat, idempotent: nat, items: seq<Item>, r: Outcome)
    requires items != [] && DistinctKeys(items) && !IsStale(rows, items[0])
    requires var here := if items[0].key in rows then 1 else 0;
             DeleteMeant(WithoutKey(rows, items[0].key), applied + here, idempotent + 1 - here, items[1..], r)
    ensures DeleteMeant(rows, applied, idempotent, items, r)
  {
    NoneStaleFirst(rows, items);
    PresentKeysFirst(rows, items);
    if r.Done? {
      DeletedFirst(rows, items, r.rows);
    }
  }

  lemma MinusAbsent(rows: Rows, key: Key)
    requires key !in rows
    ensures WithoutKey(rows, key) == rows
  {}

  /** A delete batch is refused exactly when an item is older than what is stored; otherwise exactly its
      keys go. */
  lemma {:induction false} DeleteItemsIs(rows: Rows, applied: nat, idempotent: nat, items: seq<Item>)
    requires DistinctKeys(items)
    ensures DeleteMeant(rows, applied, idempotent, items, DeleteItems(Done(rows, applied, idempotent), items))
    decreases |items|
  {
    if items == [] {
      assert PresentKeys(rows, items) == {};
    } else {
      var item, rest := items[0], items[1..];
      var o := DeleteOne(Done(rows, applied, idempotent), item);
      if o.Done? {
        DistinctTail(items);
        if item.key !in rows {
          MinusAbsent(rows, item.key);
        }
        DeleteItemsIs(o.rows, o.applied, o.idempotent, rest);
        DeleteMeantFirst(rows, applied, idempotent, items, DeleteItems(o, rest));
      }
    }
  }

  /** Sending an accepted delete batch again applies nothing. */
  lemma DeleteReplayIsIdempotent(rows: Rows, items: seq<Item>)
    requires DistinctKeys(items) && DeleteItems(Done(rows, 0, 0), items).Done?
    ensures var after := DeleteItems(Done(rows, 0, 0), items).rows;
            DeleteItems(Done(after, 0, 0), items) == Done(after, 0, |items|)
  {
    DeleteItemsIs(rows, 0, 0, items);
    AbsentKeysApplyNothing(DeleteItems(Done(rows, 0, 0), items).rows, items);
  }

  lemma AbsentKeysApplyNothing(rows: Rows, items: seq<Item>)
    requires DistinctKeys(items) && forall k :: k in KeysOf(items) ==> k !in rows
    ensures DeleteItems(Done(rows, 0, 0), items) == Done(rows, 0, |items|)
  {
    DeleteItemsIs(rows, 0, 0, items);
    assert forall i :: 0 <= i < |items| ==> items[i].key in KeysOf(items);
    assert NoneStale(rows, items);
    assert PresentKeys(rows, items) == {};
    assert DeleteItems(Done(rows, 0, 0), items).rows == rows;
  }

  /// Requests against a vector space

  /** Rows with a vector; ordinary SQL may have stored rows without one. */
  function TrueCount(rows: Rows): nat { |set k | k in rows && rows[k].embedding.Some?| }

  /** The keys of newer items that were absent or stored without a vector. */
  function GainsVector(rows: Rows, items: seq<Item>): (r: set<Key>)
    ensures forall k :: k in r <==> k in NewerKeys(rows, items) && (k in rows ==> rows[k].embedding.None?)
  {
    set k | k in NewerKeys(rows, items) && (k in rows ==> rows[k].embedding.None?) :: k
  }

  function LosesVector(rows: Rows, items: seq<Item>): (r: set<Key>)
    ensures forall k :: k in r <==> k in rows && k in KeysOf(items) && rows[k].embedding.Some?
  {
    set k | k in rows && k in KeysOf(items) && rows[k].embedding.Some? :: k
  }

  lemma DisjointCount(whole: set<Key>, a: set<Key>, b: set<Key>)
    requires (forall k :: k in whole <==> k in a || k in b) && forall k :: !(k in a && k in b)
    ensures |whole| == |a| + |b|
  {
    assert whole == a + b;
  }

  function WithVector(rows: Rows): (r: set<Key>)
    ensures |r| == TrueCount(rows) && forall k :: k in r <==> k in rows && rows[k].embedding.Some?
  {
    set k | k in rows && rows[k].embedding.Some?
  }

  /** An accepted batch adds as many vectors as it has newer keys that had none. */
  lemma UpsertAddsVectors(rows: Rows, items: seq<Item>, after: Rows)
    requires DistinctKeys(items) && Upserted(rows, items, after)
    ensures TrueCount(after) == TrueCount(rows) + |GainsVector(rows, items)|
  {
    forall k
      ensures k in WithVector(after) <==> k in WithVector(rows) || k in GainsVector(rows, items)
    {
      if k in NewerKeys(rows, items) {
        var i :| 0 <= i < |items| && IsNewer(rows, items[i]) && items[i].key == k;
        assert after[k].embedding == Some(items[i].embedding);
      }
    }
    DisjointCount(WithVector(after), WithVector(rows), GainsVector(rows, items));
  }

  lemma DeleteRemovesVectors(rows: Rows, items: seq<Item>, after: Rows)
    requires Deleted(rows, items, after)
    ensures TrueCount(after) == TrueCount(rows) - |LosesVector(rows, items)|
  {
    DisjointCount(WithVector(rows), WithVector(after), LosesVector(rows, items));
  }

  datatype Request =
    | Upsert(space: string, items: seq<Item>)
    | Delete(space: string, items: seq<Item>)

  /** One run of validated batches; a refused batch leaves the rows as they were. */
  function Step(rows: Rows, r: Request): Rows {
    var o := if r.Upsert? then UpsertItems(Done(rows, 0, 0), r.items) else DeleteItems(Done(rows, 0, 0), r.items);
    if o.Done? then o.rows else rows
  }

  function History(rows: Rows, rs: seq<Request>): (h: seq<Rows>)
    ensures |h| == |rs| + 1 && h[0] == rows
    decreases |rs|
  {
    if rs == [] then [rows] else [rows] + History(Step(rows, rs[0]), rs[1..])
  }

  lemma {:induction false} HistorySteps(rows: Rows, rs: seq<Request>, i: nat)
    requires i < |rs|
    ensures History(rows, rs)[i + 1] == Step(History(rows, rs)[i], rs[i])
    decreases |rs|
  {
    if i > 0 {
      HistorySteps(Step(rows, rs[0]), rs[1..], i - 1);
    }
  }

  ghost predicate Validated(rs: seq<Request>) { forall i :: 0 <= i < |rs| ==> DistinctKeys(rs[i].items) }

  lemma StepIsMonotone(rows: Rows, r: Request, key: Key)
    requires DistinctKeys(r.items) && key in rows && key in Step(rows, r)
    ensures Step(rows, r)[key].version >= rows[key].version
  {
    if r.Upsert? {
      if UpsertItems(Done(rows, 0, 0), r.items).Done? {
        UpsertIsMonotone(rows, r.items, key);
      }
    } else {
      DeleteItemsIs(rows, 0, 0, r.items);
    }
  }

  /** Over any run, a key's version never goes down while the key stays present. */
  lemma {:induction false} VersionsNeverGoDown(rows: Rows, rs: seq<Request>, key: Key, i: nat, j: nat)
    requires Validated(rs) && i <= j <= |rs| && forall k :: i <= k <= j ==> key in History(rows, rs)[k]
    ensures History(rows, rs)[j][key].version >= History(rows, rs)[i][key].version
    decreases j - i
  {
    if i < j {
      VersionsNeverGoDown(rows, rs, key, i, j - 1);
      HistorySteps(rows, rs, j - 1);
      StepIsMonotone(History(rows, rs)[j - 1], rs[j - 1], key);
    }
  }

  /** In any run a version that is lower than before means that the key was absent in between. */
  lemma LowerMeansAbsent(rows: Rows, rs: seq<Request>, key: Key, i: nat, j: nat)
    requires Validated(rs) && i <= j <= |rs| && key in History(rows, rs)[i] && key in History(rows, rs)[j]
    requires History(rows, rs)[j][key].version < History(rows, rs)[i][key].version
    ensures exists k :: i < k < j && key !in History(rows, rs)[k]
  {
    if forall k :: i <= k <= j ==> key in History(rows, rs)[k] {
      VersionsNeverGoDown(rows, rs, key, i, j);
    } else {
      var k :| i <= k <= j && key !in History(rows, rs)[k];
      assert i < k < j;
    }
  }

  /** And absence is enough, as a delete keeps no tombstone: from every state, deleting a key at its version
      or a later one lets any version of it in, however old. */
  lemma AnyVersionAfterDelete(rows: Rows, gone: Item, item: Item)
    requires gone.key in rows && rows[gone.key].version <= gone.version && item.key == gone.key
    ensures var h := History(rows, [Delete("s", [gone]), Upsert("s", [item])]);
            item.key !in h[1] && item.key in h[2] && h[2][item.key] == Row(item.version, item.hash, Some(item.embedding))
  {
    var rs := [Delete("s", [gone]), Upsert("s", [item])];
    HistorySteps(rows, rs, 0);
    HistorySteps(rows, rs, 1);
    DeleteItemsIs(rows, 0, 0, [gone]);
    var mid := Step(rows, rs[0]);
    assert item.key !in mid by {
      assert [gone][0].key in KeysOf([gone]);
    }
    UpsertItemsIs(mid, 0, 0, [item]);
    assert Accepts(mid, [item]) && [item][0].key in NewerKeys(mid, [item]);
  }

  /// The vector table and its index row

  class VectorSpace {
    const dimension: nat
    const cosine: bool
    var active: bool
    var rows: Rows
    var vectorCount: nat

    constructor (dimension: nat, cosine: bool)
      ensures this.dimension == dimension && this.cosine == cosine && active && rows == map[] && vectorCount == 0
    {
      this.dimension, this.cosine := dimension, cosine;
      active, rows, vectorCount := true, map[], 0;
    }

    /** `update_vector_count` */
    method UpdateVectorCount() returns (n: nat)
      modifies this`vectorCount
      ensures n == vectorCount == TrueCount(rows)
    {
      vectorCount := TrueCount(rows);
      n := vectorCount;
    }

    /** `upsert_vectors_blocking`: all newer items are written, or nothing changes. */
    method UpsertVectors(space: string, items: seq<Item>) returns (r: Result<Mutation, Error>)
      modifies this`rows, this`vectorCount
      ensures r.Ok? <==>
              && active && Trim(space) != "" && 1 <= |items| <= 1000 && DistinctKeys(items)
              && (forall i :: 0 <= i < |items| ==> ValidItem(items[i], dimension, cosine))
              && Accepts(old(rows), items)
      ensures r.Err? && (r.error == StaleSourceVersion || r.error == SourceVersionConflict) ==> BlamesRows(r.error, old(rows), items)
      ensures r.Err? ==> (r.error == IndexNotActive <==> !active)
      ensures r.Err? ==> rows == old(rows) && vectorCount == old(vectorCount)
      ensures r.Ok? ==> vectorCount == TrueCount(rows) == TrueCount(old(rows)) + |GainsVector(old(rows), items)|
      ensures r.Ok? ==> Upserted(old(rows), items, rows)
                        && r.value.applied == |NewerKeys(old(rows), items)| && r.value.applied + r.value.idempotent == |items|
                        && r.value.vectorCount == vectorCount
    {
      if !active {
        return Err(IndexNotActive);
      }
      var invalid := ValidateUpsertRequest(space, items, dimension, cosine);
      if invalid.Some? {
        return Err(invalid.value);
      }
      var error, applied, idempotent := WriteNewer(items);
      if error.Some? {
        return Err(error.value);
      }
      var n := UpdateVectorCount();
      return Ok(Mutation(applied, idempotent, n));
    }

    /** The items in turn; the first that is refused undoes those before it. */
    method WriteNewer(items: seq<Item>) returns (error: Option<Error>, applied: nat, idempotent: nat)
      requires DistinctKeys(items)
      modifies this`rows
      ensures error.None? <==> Accepts(old(rows), items)
      ensures error.Some? ==> rows == old(rows) && BlamesRows(error.value, old(rows), items)
      ensures error.None? ==> Upserted(old(rows), items, rows) && TrueCount(rows) == TrueCount(old(rows)) + |GainsVector(old(rows), items)|
      ensures error.None? ==> applied == |NewerKeys(old(rows), items)| && applied + idempotent == |items|
    {
      UpsertItemsIs(rows, 0, 0, items);
      RefusalsBlame(rows, 0, 0, items);
      var begin := rows;
      error, applied, idempotent := None, 0, 0;
      for i := 0 to |items|
        invariant UpsertItems(Done(rows, applied, idempotent), items[i..]) == UpsertItems(Done(begin, 0, 0), items)
      {
        SliceTail(items, i);
        var item := items[i];
        if item.key in rows && rows[item.key].version > item.version {
          RefusedEnds(Refused(StaleSourceVersion), items[i + 1..]);
          rows := begin;
          return Some(StaleSourceVersion), 0, 0;
        }
        if item.key in rows && rows[item.key].version == item.version {
          if rows[item.key].hash != item.hash {
            RefusedEnds(Refused(SourceVersionConflict), items[i + 1..]);
            rows := begin;
            return Some(SourceVersionConflict), 0, 0;
          }
          idempotent := idempotent + 1;
        } else {
          rows := rows[item.key := RowOf(item)];
          applied := applied + 1;
        }
      }
      UpsertAddsVectors(begin, items, rows);
    }

    /** `delete_vectors_blocking` */
    method DeleteVectors(space: string, items: seq<Item>) returns (r: Result<Mutation, Error>)
      modifies this`rows, this`vectorCount
      ensures r.Ok? <==>
              && active && Trim(space) != "" && 1 <= |items| <= 1000 && DistinctKeys(items)
              && (forall i :: 0 <= i < |items| ==> items[i].version >= 0)
              && NoneStale(old(rows), items)
      ensures r.Err? ==> (r.error == IndexNotActive <==> !active) && (r.error == StaleSourceVersion ==> !NoneStale(old(rows), items))
      ensures r.Err? ==> rows == old(rows) && vectorCount == old(vectorCount)
      ensures r.Ok? ==> vectorCount == TrueCount(rows) == TrueCount(old(rows)) - |LosesVector(old(rows), items)|
      ensures r.Ok? ==> Deleted(old(rows), items, rows)
                        && r.value.applied == |PresentKeys(old(rows), items)| && r.value.applied + r.value.idempotent == |items|
                        && r.value.vectorCount == vectorCount
    {
      if !active {
        return Err(IndexNotActive);
      }
      var invalid := ValidateDeleteRequest(space, items);
      if invalid.Some? {
        return Err(invalid.value);
      }
      var begin, applied, idempotent := rows, 0, 0;
      DeleteItemsIs(begin, 0, 0, items);
      for i := 0 to |items|
        invariant vectorCount == old(vectorCount)
        invariant DeleteItems(Done(rows, applied, idempotent), items[i..]) == DeleteItems(Done(begin, 0, 0), items)
      {
        SliceTail(items, i);
        var item := items[i];
        if item.key in rows {
          if rows[item.key].version > item.version {
            rows := begin;
            return Err(StaleSourceVersion);
          }
          rows := WithoutKey(rows, item.key);
          applied := applied + 1;
        } else {
          idempotent := idempotent + 1;
        }
      }
      DeleteRemovesVectors(begin, items, rows);
      var n := UpdateVectorCount();
      return Ok(Mutation(applied, idempotent, n));
    }
  }
}
