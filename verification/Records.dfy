/**
  Tables of mutable row objects, as the reference engine keeps them, and the mutations carried out in
  place on them. Every method is tied to the value-level table it leaves.
 */
module Records {
  import opened Values
  import opened Predicates
  import opened Tables

  /** A stored row; an update changes it in place. */
  class Record {
    var fields: Row

    constructor (fields: Row)
      ensures this.fields == fields
    {
      this.fields := fields;
    }
  }

  type HeapTable = Dict<Record>

  ghost function Owned(t: HeapTable): set<Record> {
    set i | 0 <= i < |t| :: t[i].row
  }

  /** No row object stands in two entries. */
  ghost predicate Distinct(t: HeapTable) {
    forall i, j :: 0 <= i < j < |t| ==> t[i].row != t[j].row
  }

  ghost function TableView(t: HeapTable): (v: Table)
    reads Owned(t)
    ensures |v| == |t| && forall i :: 0 <= i < |t| ==> v[i] == Entry(t[i].pk, t[i].row.fields)
  {
    seq(|t|, i requires 0 <= i < |t| reads Owned(t) => Entry(t[i].pk, t[i].row.fields))
  }

  lemma {:induction false} SamePosition(t: HeapTable, v: Table, pk: Value)
    requires |t| == |v| && forall i :: 0 <= i < |t| ==> t[i].pk == v[i].pk
    ensures Position(t, pk) == Position(v, pk)
  {
    if t != [] {
      SamePosition(t[1..], v[1..], pk);
    }
  }

  // ----- insert -----

  lemma PutRecord(t: HeapTable, pk: Value, record: Record)
    requires Distinct(t) && record !in Owned(t)
    ensures Distinct(Put(t, pk, record))
    ensures Owned(Put(t, pk, record)) <= Owned(t) + {record}
    ensures TableView(Put(t, pk, record)) == Put(TableView(t), pk, record.fields)
  {
    hide FieldOf;
    SamePosition(t, TableView(t), pk);
  }

  /** One row of an insert: refused, skipped or stored. */
  method InsertRecord(model: Model, t: HeapTable, raw: Row, c: Conflict)
    returns (t': HeapTable, refused: bool, stored: bool, ghost created: set<Record>)
    requires Distinct(t)
    ensures Distinct(t') && Owned(t') <= Owned(t) + created && fresh(created)
    ensures refused == Refused(model, TableView(t), raw, c)
    ensures stored == !(refused || Skipped(model, TableView(t), raw, c))
    ensures TableView(t') == if refused then TableView(t) else Stored(model, TableView(t), raw, c)
  {
    t', stored, created := t, false, {};
    var row := Normalized(model, raw);
    var pk := FieldOf(row, model.key);
    SamePosition(t, TableView(t), pk);
    refused := pk.Null? || (Holds(t, pk) && c.Reject?);
    if !refused && !(Holds(t, pk) && c.Ignore?) {
      var record := new Record(row);
      PutRecord(t, pk, record);
      t', stored, created := Put(t, pk, record), true, {record};
    }
  }

  function Counted(inserted: seq<Row>, rest: Outcome): Outcome {
    if rest.Done? then Done(|inserted| + rest.affected, inserted + rest.returning) else rest
  }

  /** An insert that has stored `inserted` and stands at row `i` with the table `now`. */
  ghost predicate Inserting(model: Model, was: Table, now: Table, rows: seq<Row>, c: Conflict, i: nat, inserted: seq<Row>) {
    && i <= |rows|
    && var rest := InsertRows(model, now, rows[i..], c);
       InsertRows(model, was, rows, c) == (rest.0, Counted(inserted, rest.1))
  }

  lemma CountedMore(inserted: seq<Row>, row: Row, rest: (Table, Outcome))
    ensures Counted(inserted, WithInserted(row, rest).1) == Counted(inserted + [row], rest.1)
  {
    if rest.1.Done? {
      assert inserted + [row] + rest.1.returning == inserted + ([row] + rest.1.returning);
    }
  }

  lemma InsertStep(model: Model, was: Table, now: Table, rows: seq<Row>, c: Conflict, i: nat, inserted: seq<Row>)
    requires i < |rows| && Inserting(model, was, now, rows, c, i, inserted)
    ensures Refused(model, now, rows[i], c) ==> InsertRows(model, was, rows, c) == (now, Failed(ConstraintError))
    ensures !Refused(model, now, rows[i], c) ==>
      var row := Normalized(model, rows[i]);
      Inserting(model, was, Stored(model, now, rows[i], c), rows, c, i + 1,
                if Skipped(model, now, rows[i], c) then inserted else inserted + [row])
  {
    assert rows[i..][1..] == rows[i + 1..] && rows[i..][0] == rows[i];
    CountedMore(inserted, Normalized(model, rows[i]), InsertRows(model, Stored(model, now, rows[i], c), rows[i + 1..], c));
  }

  lemma InsertingStart(model: Model, t: Table, rows: seq<Row>, c: Conflict)
    ensures Inserting(model, t, t, rows, c, 0, [])
  {
    assert rows[0..] == rows;
    var r := InsertRows(model, t, rows, c).1;
    assert r.Done? ==> [] + r.returning == r.returning;
  }

  lemma InsertingEnd(model: Model, was: Table, now: Table, rows: seq<Row>, c: Conflict, inserted: seq<Row>)
    requires Inserting(model, was, now, rows, c, |rows|, inserted)
    ensures InsertRows(model, was, rows, c) == (now, Done(|inserted|, inserted))
  {
    assert rows[|rows|..] == [] && inserted + [] == inserted;
  }

  method InsertRecords(model: Model, t: HeapTable, rows: seq<Row>, c: Conflict) returns (t': HeapTable, r: Outcome)
    requires Distinct(t)
    ensures Distinct(t') && fresh(Owned(t') - Owned(t))
    ensures TableView(t') == InsertRows(model, TableView(t), rows, c).0
    ensures r == InsertRows(model, TableView(t), rows, c).1
  {
    hide Normalized, Inserting, InsertRows, Stored, Refused, Skipped;
    t' := t;
    ghost var was := TableView(t);
    ghost var now := was;
    InsertingStart(model, was, rows, c);
    var inserted: seq<Row> := [];
    ghost var all: set<Record> := {};
    for i := 0 to |rows|
      invariant Distinct(t') && Owned(t') <= Owned(t) + all && fresh(all)
      invariant now == TableView(t') && Inserting(model, was, now, rows, c, i, inserted)
    {
      InsertStep(model, was, now, rows, c, i, inserted);
      var refused, stored;
      ghost var created;
      t', refused, stored, created := InsertRecord(model, t', rows[i], c);
      all := all + created;
      if refused {
        return t', Failed(ConstraintError);
      }
      now := Stored(model, now, rows[i], c);
      if stored {
        inserted := inserted + [Normalized(model, rows[i])];
      }
    }
    InsertingEnd(model, was, now, rows, c, inserted);
    r := Done(|inserted|, inserted);
  }

  // ----- update -----

  method MergeAt(t: HeapTable, i: nat, values: Row)
    requires Distinct(t) && i < |t|
    modifies t[i].row
    ensures TableView(t) == old(TableView(t))[i := Entry(t[i].pk, Merged(old(t[i].row.fields), values))]
  {
    t[i].row.fields := Merged(t[i].row.fields, values);
  }

  /** An update that has passed the first `i` rows and changed `n` of them. */
  ghost predicate Updating(was: Table, now: Table, filters: seq<Pred>, assignments: Row, i: nat, n: nat) {
    && |now| == |was| && i <= FirstError(was, filters) && n == |MatchingKeys(was, filters, i)|
    && (forall k :: 0 <= k < i ==> now[k] == UpdatedEntry(was[k], filters, assignments))
    && (forall k :: i <= k < |was| ==> now[k] == was[k])
  }

  lemma UpdatingStep(was: Table, now: Table, filters: seq<Pred>, assignments: Row, i: nat, n: nat)
    requires i < |was| && Updating(was, now, filters, assignments, i, n)
    ensures now[i] == was[i]
    ensures var hit := MatchesAll(was[i].row, filters);
            if hit.Err? then UpdateRows(was, filters, assignments) == (now, Failed(PredicateError(hit.error)))
            else if hit.value then
              Updating(was, now[i := Entry(was[i].pk, Merged(was[i].row, assignments))], filters, assignments, i + 1, n + 1)
            else Updating(was, now, filters, assignments, i + 1, n)
  {
    hide MatchesAll;
    if MatchesAll(was[i].row, filters).Err? {
      assert now == UpdateRows(was, filters, assignments).0;
    }
  }

  lemma UpdatingEnd(was: Table, now: Table, filters: seq<Pred>, assignments: Row, n: nat)
    requires Updating(was, now, filters, assignments, |was|, n)
    ensures UpdateRows(was, filters, assignments) == (now, Done(n, []))
  {
    assert now == UpdateRows(was, filters, assignments).0;
  }

  method UpdateRecords(t: HeapTable, filters: seq<Pred>, assignments: Row) returns (r: Outcome)
    requires Distinct(t)
    modifies Owned(t)
    ensures TableView(t) == UpdateRows(old(TableView(t)), filters, assignments).0
    ensures r == UpdateRows(old(TableView(t)), filters, assignments).1
  {
    hide MatchesAll, UpdateRows;
    ghost var was := TableView(t);
    var affected := 0;
    for i := 0 to |t|
      invariant Updating(was, TableView(t), filters, assignments, i, affected)
    {
      UpdatingStep(was, TableView(t), filters, assignments, i, affected);
      var hit := MatchesAll(t[i].row.fields, filters);
      if hit.Err? {
        return Failed(PredicateError(hit.error));
      }
      if hit.value {
        MergeAt(t, i, assignments);
        affected := affected + 1;
      }
    }
    UpdatingEnd(was, TableView(t), filters, assignments, affected);
    r := Done(affected, []);
  }

  // ----- delete -----

  method SelectKeys(t: HeapTable, filters: seq<Pred>) returns (r: Result<seq<Value>, Outcome>)
    ensures
      var v := TableView(t);
      r == if FirstError(v, filters) < |v| then Err(FilterFailure(v, filters)) else Ok(MatchingKeys(v, filters, |v|))
  {
    ghost var v := TableView(t);
    var keys: seq<Value> := [];
    for i := 0 to |t|
      invariant i <= FirstError(v, filters) && keys == MatchingKeys(v, filters, i)
    {
      var hit := MatchesAll(t[i].row.fields, filters);
      if hit.Err? {
        return Err(Failed(PredicateError(hit.error)));
      }
      if hit.value {
        keys := keys + [t[i].pk];
      }
    }
    r := Ok(keys);
  }

  lemma {:induction false} WithoutView(t: HeapTable, keys: seq<Value>)
    ensures Owned(Without(t, keys)) <= Owned(t)
    ensures TableView(Without(t, keys)) == Without(TableView(t), keys)
  {
    if t != [] {
      WithoutView(t[1..], keys);
      assert TableView(t)[1..] == TableView(t[1..]);
      var rest := Without(t[1..], keys);
      if t[0].pk !in keys {
        assert TableView([t[0]] + rest) == [TableView(t)[0]] + TableView(rest);
      }
      forall r | r in Owned(t[1..]) ensures r in Owned(t) {
        var i :| 0 <= i < |t[1..]| && t[1..][i].row == r;
        assert t[i + 1].row == r;
      }
    }
  }

  lemma {:induction false} WithoutDistinct(t: HeapTable, keys: seq<Value>)
    requires Distinct(t)
    ensures Distinct(Without(t, keys))
  {
    if t != [] {
      WithoutDistinct(t[1..], keys);
      var rest := Without(t[1..], keys);
      forall j | 0 <= j < |rest| ensures rest[j].row != t[0].row {
        var k := WithoutFrom(t[1..], keys, j);
        assert t[k + 1] == rest[j];
      }
    }
  }

  method DeleteRecords(t: HeapTable, filters: seq<Pred>) returns (t': HeapTable, r: Outcome)
    requires Distinct(t)
    ensures Distinct(t') && Owned(t') <= Owned(t)
    ensures TableView(t') == DeleteRows(TableView(t), filters).0 && r == DeleteRows(TableView(t), filters).1
  {
    var doomed := SelectKeys(t, filters);
    if doomed.Err? {
      return t, doomed.error;
    }
    WithoutView(t, doomed.value);
    WithoutDistinct(t, doomed.value);
    t', r := Without(t, doomed.value), Done(|doomed.value|, []);
  }

  // ----- upsert -----

  lemma {:induction false} FirstAgreeingIs(t: Table, key: Row, i: nat)
    requires i <= |t| && forall k :: 0 <= k < i ==> !Agrees(t[k].row, key)
    requires i < |t| ==> Agrees(t[i].row, key)
    ensures FirstAgreeing(t, key) == i
  {
    assert FirstAgreeing(t, key) >= i;
  }

  method FindRecord(t: HeapTable, key: Row) returns (i: nat)
    ensures i == FirstAgreeing(TableView(t), key)
  {
    i := 0;
    while i < |t| && !Agrees(t[i].row.fields, key)
      invariant i <= |t| && forall k :: 0 <= k < i ==> !Agrees(TableView(t)[k].row, key)
    {
      i := i + 1;
    }
    FirstAgreeingIs(TableView(t), key, i);
  }

  method UpsertRecord(model: Model, t: HeapTable, key: Row, values: Row) returns (t': HeapTable, r: Outcome)
    requires Distinct(t)
    modifies Owned(t)
    ensures Distinct(t') && fresh(Owned(t') - Owned(t))
    ensures TableView(t') == UpsertRow(model, old(TableView(t)), key, values).0 && r == UpsertRow(model, old(TableView(t)), key, values).1
  {
    var i := FindRecord(t, key);
    t' := t;
    if i < |t| {
      MergeAt(t, i, values);
      return t', Done(1, [t[i].row.fields]);
    }
    var row := Normalized(model, Merged(key, values));
    var pk := FieldOf(row, model.key);
    if pk.Null? {
      return t', Failed(ConstraintError);
    }
    var record := new Record(row);
    PutRecord(t, pk, record);
    t', r := Put(t, pk, record), Done(1, [row]);
  }

  // ----- any mutation -----

  method MutateRecords(model: Model, t: HeapTable, m: Mutation) returns (t': HeapTable, r: Outcome)
    requires Distinct(t)
    modifies Owned(t)
    ensures Distinct(t') && fresh(Owned(t') - Owned(t))
    ensures TableView(t') == Mutate(model, old(TableView(t)), m).0 && r == Mutate(model, old(TableView(t)), m).1
  {
    match m
    case Insert(rows, onConflict) => t', r := InsertRecords(model, t, rows, onConflict);
    case Update(filters, assignments) =>
      r := UpdateRecords(t, filters, assignments);
      t' := t;
    case Delete(filters) => t', r := DeleteRecords(t, filters);
    case Upsert(key, values) => t', r := UpsertRecord(model, t, key, values);
  }

  // ----- deep copy -----

  method CopyTable(t: HeapTable) returns (t': HeapTable)
    ensures Distinct(t') && fresh(Owned(t')) && TableView(t') == TableView(t)
  {
    t' := [];
    for i := 0 to |t|
      invariant |t'| == i && Distinct(t') && forall k :: 0 <= k < i ==> fresh(t'[k].row)
      invariant forall k :: 0 <= k < i ==> t'[k].pk == t[k].pk && t'[k].row.fields == t[k].row.fields
    {
      var record := new Record(t[i].row.fields);
      t' := t' + [Entry(t[i].pk, record)];
    }
  }
}
