/**
  A primary-key table, an insertion-ordered dictionary, and the four mutations on it.
 */
module Tables {
  import opened Values
  import opened Predicates

  /** `collections` names the relationship fields that are never stored. */
  datatype Model = Model(key: string, collections: set<string>)

  /** The entries of a dictionary in insertion order. */
  type Dict<T> = seq<Entry<T>>

  datatype Entry<T> = Entry(pk: Value, row: T)

  type Table = Dict<Row>

  datatype Conflict = Reject | Ignore | Replace

  datatype Mutation =
    | Insert(rows: seq<Row>, onConflict: Conflict)
    | Update(filters: seq<Pred>, assignments: Row)
    | Delete(filters: seq<Pred>)
    | Upsert(key: Row, values: Row)

  datatype MutationError = ConstraintError | PredicateError(cause: EvalError)

  datatype Outcome = Done(affected: nat, returning: seq<Row>) | Failed(error: MutationError)

  // ----- dictionaries -----

  function Position<T>(t: Dict<T>, pk: Value): (i: nat)
    ensures i <= |t|
    ensures i < |t| ==> t[i].pk == pk
    ensures forall k :: 0 <= k < i ==> t[k].pk != pk
  {
    if t == [] || t[0].pk == pk then 0 else 1 + Position(t[1..], pk)
  }

  predicate Holds<T>(t: Dict<T>, pk: Value) {
    Position(t, pk) < |t|
  }

  /** Replacing an entry keeps its place; a new one goes last. */
  function Put<T>(t: Dict<T>, pk: Value, x: T): Dict<T> {
    var i := Position(t, pk);
    if i < |t| then t[i := Entry(pk, x)] else t + [Entry(pk, x)]
  }

  function RowsOf(t: Table): (r: seq<Row>)
    ensures |r| == |t| && forall i :: 0 <= i < |t| ==> r[i] == t[i].row
  {
    seq(|t|, i requires 0 <= i < |t| => t[i].row)
  }

  // ----- mutations -----

  /** `row.update(values)` */
  function Merged(row: Row, values: Row): Row {
    row + values
  }

  function Normalized(model: Model, row: Row): Row {
    row - model.collections
  }

  function WithInserted(row: Row, rest: (Table, Outcome)): (Table, Outcome) {
    (rest.0, if rest.1.Done? then Done(rest.1.affected + 1, [row] + rest.1.returning) else rest.1)
  }

  function InsertRows(model: Model, t: Table, rows: seq<Row>, c: Conflict): (Table, Outcome)
    decreases |rows|
  {
    if rows == [] then (t, Done(0, []))
    else
      var row := Normalized(model, rows[0]);
      var pk := FieldOf(row, model.key);
      if pk.Null? || (Holds(t, pk) && c.Reject?) then (t, Failed(ConstraintError))
      else if Holds(t, pk) && c.Ignore? then InsertRows(model, t, rows[1..], c)
      else WithInserted(row, InsertRows(model, Put(t, pk, row), rows[1..], c))
  }

  /** The index of the first row on which the filters fail to evaluate, or the length. */
  function FirstError(t: Table, filters: seq<Pred>): (i: nat)
    ensures i <= |t| && (i < |t| ==> MatchesAll(t[i].row, filters).Err?)
    ensures forall k :: 0 <= k < i ==> MatchesAll(t[k].row, filters).Ok?
  {
    if t == [] || MatchesAll(t[0].row, filters).Err? then 0 else 1 + FirstError(t[1..], filters)
  }

  predicate Matched(row: Row, filters: seq<Pred>) {
    var r := MatchesAll(row, filters);
    r.Ok? && r.value
  }

  /** The keys of those of the first `n` rows that satisfy the filters. */
  function MatchingKeys(t: Table, filters: seq<Pred>, n: nat): seq<Value>
    requires n <= |t|
  {
    if n == 0 then []
    else MatchingKeys(t, filters, n - 1) + if Matched(t[n - 1].row, filters) then [t[n - 1].pk] else []
  }

  function FilterFailure(t: Table, filters: seq<Pred>): Outcome
    requires FirstError(t, filters) < |t|
  {
    Failed(PredicateError(MatchesAll(t[FirstError(t, filters)].row, filters).error))
  }

  /** A row keeps its key whatever is assigned. */
  function UpdatedEntry(e: Entry<Row>, filters: seq<Pred>, assignments: Row): Entry<Row> {
    if Matched(e.row, filters) then Entry(e.pk, Merged(e.row, assignments)) else e
  }

  /** Rows before a row on which the filters fail stay updated. */
  function UpdateRows(t: Table, filters: seq<Pred>, assignments: Row): (Table, Outcome) {
    var bad := FirstError(t, filters);
    (seq(|t|, k requires 0 <= k < |t| => if k < bad then UpdatedEntry(t[k], filters, assignments) else t[k]),
     if bad < |t| then FilterFailure(t, filters) else Done(|MatchingKeys(t, filters, |t|)|, []))
  }

  function Without<T>(t: Dict<T>, keys: seq<Value>): Dict<T> {
    if t == [] then [] else (if t[0].pk in keys then [] else [t[0]]) + Without(t[1..], keys)
  }

  /** The keys are collected first, so a filter that fails deletes nothing. */
  function DeleteRows(t: Table, filters: seq<Pred>): (Table, Outcome) {
    if FirstError(t, filters) < |t| then (t, FilterFailure(t, filters))
    else
      var doomed := MatchingKeys(t, filters, |t|);
      (Without(t, doomed), Done(|doomed|, []))
  }

  predicate Agrees(row: Row, key: Row) {
    forall k :: k in key ==> FieldOf(row, k) == key[k]
  }

  /** The index of the first row that agrees with the key, or the length. */
  function FirstAgreeing(t: Table, key: Row): (i: nat)
    ensures i <= |t|
    ensures i < |t| ==> Agrees(t[i].row, key)
    ensures forall k :: 0 <= k < i ==> !Agrees(t[k].row, key)
  {
    if t == [] || Agrees(t[0].row, key) then 0 else 1 + FirstAgreeing(t[1..], key)
  }

  function UpsertRow(model: Model, t: Table, key: Row, values: Row): (Table, Outcome) {
    var i := FirstAgreeing(t, key);
    if i < |t| then
      var row := Merged(t[i].row, values);
      (t[i := Entry(t[i].pk, row)], Done(1, [row]))
    else
      var row := Normalized(model, Merged(key, values));
      var pk := FieldOf(row, model.key);
      if pk.Null? then (t, Failed(ConstraintError)) else (Put(t, pk, row), Done(1, [row]))
  }

  function Mutate(model: Model, t: Table, m: Mutation): (Table, Outcome) {
    match m
    case Insert(rows, onConflict) => InsertRows(model, t, rows, onConflict)
    case Update(filters, assignments) => UpdateRows(t, filters, assignments)
    case Delete(filters) => DeleteRows(t, filters)
    case Upsert(key, values) => UpsertRow(model, t, key, values)
  }

  // ----- what mutations keep -----

  /** No key twice. */
  ghost predicate Keyed<T>(t: Dict<T>) {
    forall i, j :: 0 <= i < j < |t| ==> t[i].pk != t[j].pk
  }

  /** Every row is stored under its own primary key. */
  ghost predicate Consistent(model: Model, t: Table) {
    forall i :: 0 <= i < |t| ==> FieldOf(t[i].row, model.key) == t[i].pk && !t[i].pk.Null?
  }

  lemma {:induction false} WithoutFrom<T>(t: Dict<T>, keys: seq<Value>, i: nat) returns (k: nat)
    requires i < |Without(t, keys)|
    ensures k < |t| && t[k] == Without(t, keys)[i] && t[k].pk !in keys
  {
    if t[0].pk in keys {
      k := WithoutFrom(t[1..], keys, i);
      k := k + 1;
    } else if i == 0 {
      k := 0;
    } else {
      k := WithoutFrom(t[1..], keys, i - 1);
      k := k + 1;
    }
  }

  lemma {:induction false} WithoutKeepsOthers<T>(t: Dict<T>, keys: seq<Value>, k: nat)
    requires k < |t| && t[k].pk !in keys
    ensures t[k] in Without(t, keys)
  {
    if k > 0 {
      WithoutKeepsOthers(t[1..], keys, k - 1);
    }
  }

  lemma {:induction false} WithoutKeyed<T>(t: Dict<T>, keys: seq<Value>)
    requires Keyed(t)
    ensures Keyed(Without(t, keys))
  {
    if t != [] {
      WithoutKeyed(t[1..], keys);
      var rest := Without(t[1..], keys);
      forall j | 0 <= j < |rest| ensures rest[j].pk != t[0].pk {
        var k := WithoutFrom(t[1..], keys, j);
        assert t[k + 1] == rest[j];
      }
    }
  }

  lemma WithoutConsistent(model: Model, t: Table, keys: seq<Value>)
    ensures Consistent(model, t) ==> Consistent(model, Without(t, keys))
  {
    var rest := Without(t, keys);
    forall i | 0 <= i < |rest| ensures exists k :: 0 <= k < |t| && t[k] == rest[i] {
      var k := WithoutFrom(t, keys, i);
    }
  }

  lemma PutKeeps(model: Model, t: Table, pk: Value, row: Row)
    requires Keyed(t)
    ensures Keyed(Put(t, pk, row))
    ensures Consistent(model, t) && FieldOf(row, model.key) == pk && !pk.Null? ==> Consistent(model, Put(t, pk, row))
  {
  }

  lemma {:induction false} InsertKeeps(model: Model, t: Table, rows: seq<Row>, c: Conflict)
    requires Keyed(t)
    ensures Keyed(InsertRows(model, t, rows, c).0)
    ensures Consistent(model, t) ==> Consistent(model, InsertRows(model, t, rows, c).0)
    decreases |rows|
  {
    if rows != [] {
      var row := Normalized(model, rows[0]);
      var pk := FieldOf(row, model.key);
      if pk.Null? || (Holds(t, pk) && c.Reject?) {
      } else if Holds(t, pk) && c.Ignore? {
        InsertKeeps(model, t, rows[1..], c);
      } else {
        PutKeeps(model, t, pk, row);
        InsertKeeps(model, Put(t, pk, row), rows[1..], c);
      }
    }
  }

  lemma UpdateKeeps(model: Model, t: Table, filters: seq<Pred>, assignments: Row)
    requires Consistent(model, t) && model.key !in assignments
    ensures Consistent(model, UpdateRows(t, filters, assignments).0)
  {
    var after := UpdateRows(t, filters, assignments).0;
    forall k | 0 <= k < |t| ensures FieldOf(after[k].row, model.key) == t[k].pk && after[k].pk == t[k].pk {
      assert FieldOf(Merged(t[k].row, assignments), model.key) == FieldOf(t[k].row, model.key);
    }
  }

  /** The fields a mutation writes into rows it finds. */
  function Overwrites(m: Mutation): set<string> {
    match m
    case Update(_, assignments) => assignments.Keys
    case Upsert(_, values) => values.Keys
    case _ => {}
  }

  /** Every mutation, failing or not, keeps the keys distinct, and keeps each row under its own
      primary key as long as it does not write the primary key into rows it finds. */
  lemma MutationKeeps(model: Model, t: Table, m: Mutation)
    requires Keyed(t)
    ensures Keyed(Mutate(model, t, m).0)
    ensures Consistent(model, t) && model.key !in Overwrites(m) ==> Consistent(model, Mutate(model, t, m).0)
  {
    match m
    case Insert(rows, onConflict) => InsertKeeps(model, t, rows, onConflict);
    case Update(filters, assignments) =>
      if Consistent(model, t) && model.key !in assignments {
        UpdateKeeps(model, t, filters, assignments);
      }
    case Delete(filters) =>
      var doomed := MatchingKeys(t, filters, |t|);
      WithoutKeyed(t, doomed);
      WithoutConsistent(model, t, doomed);
    case Upsert(key, values) => UpsertKeeps(model, t, key, values);
  }

  lemma UpsertKeeps(model: Model, t: Table, key: Row, values: Row)
    requires Keyed(t)
    ensures Keyed(UpsertRow(model, t, key, values).0)
    ensures Consistent(model, t) && model.key !in values ==> Consistent(model, UpsertRow(model, t, key, values).0)
  {
    var i := FirstAgreeing(t, key);
    if i < |t| {
    } else {
      var row := Normalized(model, Merged(key, values));
      var pk := FieldOf(row, model.key);
      PutKeeps(model, t, pk, row);
    }
  }

  lemma {:induction false} MatchingKeysMatch(t: Table, filters: seq<Pred>, n: nat)
    requires Keyed(t) && n <= |t|
    ensures forall i :: 0 <= i < |t| ==> (t[i].pk in MatchingKeys(t, filters, n) <==> i < n && Matched(t[i].row, filters))
  {
    if n > 0 {
      MatchingKeysMatch(t, filters, n - 1);
    }
  }

  /** A delete that reports success removed exactly the rows that satisfy the filters. */
  lemma DeleteRemovesTheMatching(model: Model, t: Table, filters: seq<Pred>)
    requires Keyed(t) && Mutate(model, t, Delete(filters)).1.Done?
    ensures var rest := Mutate(model, t, Delete(filters)).0;
            forall i :: 0 <= i < |rest| ==> rest[i] in t && !Matched(rest[i].row, filters)
    ensures forall i :: 0 <= i < |t| && !Matched(t[i].row, filters) ==> t[i] in Mutate(model, t, Delete(filters)).0
  {
    var doomed := MatchingKeys(t, filters, |t|);
    MatchingKeysMatch(t, filters, |t|);
    var rest := Without(t, doomed);
    forall i | 0 <= i < |rest| ensures rest[i] in t && !Matched(rest[i].row, filters) {
      var k := WithoutFrom(t, doomed, i);
    }
    forall i | 0 <= i < |t| && !Matched(t[i].row, filters) ensures t[i] in rest {
      WithoutKeepsOthers(t, doomed, i);
    }
  }

  /** An update that assigns the primary key leaves every row under its own key exactly when each row
      it changes had that key already. */
  lemma UpdateKeepsKeysExactly(model: Model, t: Table, filters: seq<Pred>, assignments: Row)
    requires Consistent(model, t) && model.key in assignments
    ensures Consistent(model, UpdateRows(t, filters, assignments).0) <==>
      forall k :: 0 <= k < FirstError(t, filters) && Matched(t[k].row, filters) ==> assignments[model.key] == t[k].pk
  {
    hide Matched, FirstError;
    var after := UpdateRows(t, filters, assignments).0;
    forall k | 0 <= k < |t|
      ensures after[k].pk == t[k].pk
      ensures FieldOf(after[k].row, model.key) ==
        if k < FirstError(t, filters) && Matched(t[k].row, filters) then assignments[model.key] else t[k].pk
    {
    }
  }

  /** Assigning the primary key leaves the row under its old key. */
  lemma UpdateDoesNotRekey(pk: Value, other: Value)
    requires !pk.Null? && pk != other
    ensures
      var model := Model("id", {});
      var t := [Entry(pk, map["id" := pk])];
      Consistent(model, t) && UpdateRows(t, [], map["id" := other]).0 == [Entry(pk, map["id" := other])]
      && !Consistent(model, UpdateRows(t, [], map["id" := other]).0)
  {
    var t := [Entry(pk, map["id" := pk])];
    var after := UpdateRows(t, [], map["id" := other]).0;
    assert t[1..] == [];
    assert Merged(map["id" := pk], map["id" := other]) == map["id" := other];
    assert after[0] == Entry(pk, map["id" := other]);
    assert FieldOf(after[0].row, "id") == other;
  }

  // ----- a failing insert -----

  predicate Refused(model: Model, t: Table, row: Row, c: Conflict) {
    var pk := FieldOf(Normalized(model, row), model.key);
    pk.Null? || (Holds(t, pk) && c.Reject?)
  }

  predicate Skipped(model: Model, t: Table, row: Row, c: Conflict) {
    Holds(t, FieldOf(Normalized(model, row), model.key)) && c.Ignore?
  }

  /** The table after one row that is not refused. */
  function Stored(model: Model, t: Table, row: Row, c: Conflict): Table {
    var stored := Normalized(model, row);
    if Skipped(model, t, row, c) then t else Put(t, FieldOf(stored, model.key), stored)
  }

  lemma InsertStep(model: Model, t: Table, rows: seq<Row>, c: Conflict)
    requires rows != [] && !Refused(model, t, rows[0], c)
    ensures
      var all, rest := InsertRows(model, t, rows, c), InsertRows(model, Stored(model, t, rows[0], c), rows[1..], c);
      all.0 == rest.0 && (all.1.Done? <==> rest.1.Done?)
  {
  }

  /** An insert fails at the first row refused and keeps what it stored before it. */
  lemma {:induction false} FailedInsertKeepsEarlierRows(model: Model, t: Table, rows: seq<Row>, c: Conflict)
    returns (n: nat)
    requires InsertRows(model, t, rows, c).1.Failed?
    ensures n < |rows|
    ensures InsertRows(model, t, rows[..n], c).1.Done?
    ensures InsertRows(model, t, rows, c).0 == InsertRows(model, t, rows[..n], c).0
    ensures Refused(model, InsertRows(model, t, rows[..n], c).0, rows[n], c)
    decreases |rows|
  {
    if Refused(model, t, rows[0], c) {
      n := 0;
    } else {
      var k := FailedInsertKeepsEarlierRows(model, Stored(model, t, rows[0], c), rows[1..], c);
      n := k + 1;
      InsertStep(model, t, rows, c);
      assert rows[..n][1..] == rows[1..][..k];
      InsertStep(model, t, rows[..n], c);
    }
  }

  // ----- what a mutation reports and leaves -----

  ghost function MatchingPlaces(t: Table, filters: seq<Pred>, n: nat): set<nat>
    requires n <= |t|
  {
    set i | 0 <= i < n && Matched(t[i].row, filters)
  }

  lemma {:induction false} MatchingKeysCount(t: Table, filters: seq<Pred>, n: nat)
    requires n <= |t|
    ensures |MatchingKeys(t, filters, n)| == |MatchingPlaces(t, filters, n)|
  {
    hide Matched;
    if n == 0 {
      assert MatchingPlaces(t, filters, 0) == {};
    } else {
      MatchingKeysCount(t, filters, n - 1);
      var before := MatchingPlaces(t, filters, n - 1);
      assert MatchingPlaces(t, filters, n) == before + if Matched(t[n - 1].row, filters) then {n - 1} else {};
    }
  }

  ghost predicate Faulty(t: Table, filters: seq<Pred>) {
    exists i :: 0 <= i < |t| && MatchesAll(t[i].row, filters).Err?
  }

  ghost predicate FirstFault(t: Table, filters: seq<Pred>, i: nat) {
    i < |t| && MatchesAll(t[i].row, filters).Err? && forall k :: 0 <= k < i ==> MatchesAll(t[k].row, filters).Ok?
  }

  /** An update or delete fails if and only if the filters fail on some row, with the error of the first one;
      otherwise it reports the number of matching rows and returns none of them. */
  lemma FiltersDecide(model: Model, t: Table, filters: seq<Pred>, assignments: Row)
    ensures
      var u, d := Mutate(model, t, Update(filters, assignments)), Mutate(model, t, Delete(filters));
      && u.1 == d.1 && (u.1.Failed? <==> Faulty(t, filters))
      && (u.1.Failed? ==> d.0 == t && exists i: nat :: FirstFault(t, filters, i) && u.1.error == PredicateError(MatchesAll(t[i].row, filters).error))
      && (u.1.Done? ==> u.1 == Done(|MatchingPlaces(t, filters, |t|)|, []))
  {
    hide MatchesAll, Matched, MatchingKeys;
    MatchingKeysCount(t, filters, |t|);
    var bad := FirstError(t, filters);
    if bad < |t| {
      assert FirstFault(t, filters, bad);
    }
  }

  /** An update keeps every row in its place and under its key; those that match, up to the first on which
      the filters fail, have the assigned values and keep their other fields. */
  lemma UpdateWrites(model: Model, t: Table, filters: seq<Pred>, assignments: Row, i: nat)
    requires i < |t|
    ensures
      var after := Mutate(model, t, Update(filters, assignments)).0;
      && |after| == |t| && after[i].pk == t[i].pk
      && if Matched(t[i].row, filters) && forall k :: 0 <= k < i ==> MatchesAll(t[k].row, filters).Ok? then
           forall c :: FieldOf(after[i].row, c) == if c in assignments then assignments[c] else FieldOf(t[i].row, c)
         else after[i].row == t[i].row
  {
    var bad := FirstError(t, filters);
    assert i >= bad ==> bad == i || MatchesAll(t[bad].row, filters).Err?;
  }

  /** The row stored under a key. */
  function Under(t: Table, pk: Value): Option<Row> {
    var i := Position(t, pk);
    if i < |t| then Some(t[i].row) else None
  }

  lemma UnderPut(t: Table, pk: Value, row: Row, k: Value)
    ensures Under(Put(t, pk, row), k) == if k == pk then Some(row) else Under(t, k)
  {
    PositionPut(t, pk, row, k);
  }

  lemma {:induction false} PositionPut(t: Table, pk: Value, row: Row, k: Value)
    ensures var after := Put(t, pk, row);
      && (k == pk ==> Position(after, k) == Position(t, pk))
      && (k != pk ==> Position(after, k) == if Position(t, k) < |t| then Position(t, k) else |after|)
      && |after| == |t| + if Position(t, pk) < |t| then 0 else 1
    decreases |t|
  {
    var after := Put(t, pk, row);
    var i := Position(t, pk);
    if i < |t| {
      assert forall j :: 0 <= j < |t| ==> after[j].pk == t[j].pk;
      SamePositions(t, after, k);
    } else {
      AppendPosition(t, Entry(pk, row), k);
    }
  }

  lemma {:induction false} SamePositions(t: Table, u: Table, k: Value)
    requires |t| == |u| && forall j :: 0 <= j < |t| ==> t[j].pk == u[j].pk
    ensures Position(t, k) == Position(u, k)
    decreases |t|
  {
    if t != [] && t[0].pk != k {
      SamePositions(t[1..], u[1..], k);
    }
  }

  lemma {:induction false} AppendPosition(t: Table, e: Entry<Row>, k: Value)
    ensures Position(t + [e], k) == if Position(t, k) < |t| then Position(t, k) else if e.pk == k then |t| else |t| + 1
    decreases |t|
  {
    if t != [] {
      assert (t + [e])[1..] == t[1..] + [e];
      AppendPosition(t[1..], e, k);
    }
  }

  /** The last, or the first, of the rows that has this key. */
  function LastWith(model: Model, rows: seq<Row>, pk: Value): Option<Row>
    decreases |rows|
  {
    if rows == [] then None
    else
      var later := LastWith(model, rows[1..], pk);
      if later.Some? then later
      else if FieldOf(Normalized(model, rows[0]), model.key) == pk then Some(Normalized(model, rows[0]))
      else None
  }

  function FirstWith(model: Model, rows: seq<Row>, pk: Value): Option<Row>
    decreases |rows|
  {
    if rows == [] then None
    else if FieldOf(Normalized(model, rows[0]), model.key) == pk then Some(Normalized(model, rows[0]))
    else FirstWith(model, rows[1..], pk)
  }

  /** An insert that succeeds leaves under each key, when conflicts replace, the last row given for it, if any,
      and otherwise the row stored before or else the first one given; it reports as many rows as it returns,
      and unless it ignores some, that is all of them. */
  lemma {:induction false} InsertLeaves(model: Model, t: Table, rows: seq<Row>, c: Conflict, k: Value)
    requires InsertRows(model, t, rows, c).1.Done?
    ensures
      var after, out := InsertRows(model, t, rows, c).0, InsertRows(model, t, rows, c).1;
      var last, first := LastWith(model, rows, k), FirstWith(model, rows, k);
      && Under(after, k) == (if c.Replace? && last.Some? then last else if Under(t, k).Some? then Under(t, k) else first)
      && out.affected == |out.returning| <= |rows| && (!c.Ignore? ==> out.affected == |rows|)
    decreases |rows|
  {
    hide Position, Put;
    if rows != [] {
      var row := Normalized(model, rows[0]);
      var pk := FieldOf(row, model.key);
      if Holds(t, pk) && c.Ignore? {
        InsertLeaves(model, t, rows[1..], c, k);
        assert Under(t, pk).Some?;
      } else {
        InsertLeaves(model, Put(t, pk, row), rows[1..], c, k);
        UnderPut(t, pk, row, k);
        if c.Reject? {
          assert Under(t, pk).None?;
        }
      }
    }
  }

  /** The rows an insert returns are those it stored, in order and without their collections; none is ignored
      whose key was free. */
  lemma {:induction false} InsertReturns(model: Model, t: Table, rows: seq<Row>, c: Conflict)
    requires InsertRows(model, t, rows, c).1.Done?
    ensures
      var returned := InsertRows(model, t, rows, c).1.returning;
      && (!c.Ignore? ==> forall i :: 0 <= i < |rows| ==> |returned| == |rows| && returned[i] == Normalized(model, rows[i]))
      && forall r :: r in returned ==> exists i :: 0 <= i < |rows| && r == Normalized(model, rows[i])
    decreases |rows|
  {
    hide Position, Put, Normalized;
    if rows != [] {
      var row := Normalized(model, rows[0]);
      var pk := FieldOf(row, model.key);
      var next := if Holds(t, pk) && c.Ignore? then t else Put(t, pk, row);
      InsertReturns(model, next, rows[1..], c);
    }
  }

  /** An upsert reports and returns one row: the first that agrees with the key, with the values written over
      it, or the key and the values as a new row, which needs a primary key. */
  lemma UpsertDecides(model: Model, t: Table, key: Row, values: Row)
    ensures
      var (after, out) := Mutate(model, t, Upsert(key, values));
      var i := FirstAgreeing(t, key);
      if i < |t| then
        && |after| == |t| && (forall k :: 0 <= k < |t| && k != i ==> after[k] == t[k]) && after[i].pk == t[i].pk
        && out == Done(1, [after[i].row])
        && forall c :: FieldOf(after[i].row, c) == if c in values then values[c] else FieldOf(t[i].row, c)
      else
        var row := (map c | c in key :: key[c]) + (map c | c in values :: values[c]) - model.collections;
        if FieldOf(row, model.key).Null? then after == t && out == Failed(ConstraintError)
        else Under(after, FieldOf(row, model.key)) == Some(row) && out == Done(1, [row])
  {
    if FirstAgreeing(t, key) == |t| {
      assert (map c | c in key :: key[c]) == key && (map c | c in values :: values[c]) == values;
      var row := Normalized(model, Merged(key, values));
      UnderPut(t, FieldOf(row, model.key), row, FieldOf(row, model.key));
    }
  }
}
