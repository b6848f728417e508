/**
  The two backends side by side: an INSERT, UPDATE or DELETE text executed on a table with a primary key,
  and the same mutation by the reference engine.
 */
module SqlAgainstEngine {
  import opened Values
  import opened Predicates
  import opened SqlText
  import opened SqlCompiler
  import opened SqlAgreement
  import opened SqlExecution
  import opened SqlMutations
  import opened SqlInserts
  import opened SqlInsertParsing
  import opened SqlDatabase
  import Tables

  type Table = Tables.Table

  lemma {:induction false} UpdatedIsMerged(row: Row, assignments: Assignments)
    ensures Updated(row, assignments) == Tables.Merged(row, DictOf(assignments))
    decreases |assignments|
  {
    if assignments != [] {
      var (column, value) := assignments[0];
      UpdatedIsMerged(row[column := value], assignments[1..]);
      assert row[column := value] + DictOf(assignments[1..]) == row + (map[column := value] + DictOf(assignments[1..]));
    }
  }

  ghost predicate NeverFails(t: Table, filters: seq<Pred>) {
    forall i :: 0 <= i < |t| ==> MatchesAll(t[i].row, filters).Ok?
  }

  lemma {:induction false} SuitsNeverFails(t: Table, filters: seq<Pred>, types: Schema)
    requires Suits(filters, types, Tables.RowsOf(t))
    ensures NeverFails(t, filters)
  {
    forall i | 0 <= i < |t| ensures MatchesAll(t[i].row, filters).Ok? {
      var row := t[i].row;
      assert row == Tables.RowsOf(t)[i];
      assert row in Tables.RowsOf(t);
      MatchesAllIsConjunction(row, filters, types);
    }
  }

  lemma {:induction false} ReferenceUpdateSize(assignments: Assignments, filters: seq<Pred>, rows: seq<Row>)
    ensures |ReferenceUpdate(assignments, filters, rows)| == |rows|
  {
    if rows != [] {
      ReferenceUpdateSize(assignments, filters, rows[1..]);
    }
  }

  lemma {:induction false} ReferenceUpdateAt(assignments: Assignments, filters: seq<Pred>, rows: seq<Row>, i: nat)
    requires i < |rows|
    ensures i < |ReferenceUpdate(assignments, filters, rows)|
    ensures ReferenceUpdate(assignments, filters, rows)[i] ==
      if MatchesAll(rows[i], filters) == Ok(true) then Updated(rows[i], assignments) else rows[i]
  {
    if i > 0 {
      ReferenceUpdateAt(assignments, filters, rows[1..], i - 1);
    }
  }

  lemma EngineUpdates(model: Tables.Model, t: Table, assignments: Assignments, filters: seq<Pred>)
    requires NeverFails(t, filters)
    ensures Tables.RowsOf(Tables.Mutate(model, t, Tables.Update(filters, DictOf(assignments))).0) ==
      ReferenceUpdate(assignments, filters, Tables.RowsOf(t))
  {
    var after := Tables.UpdateRows(t, filters, DictOf(assignments)).0;
    var rows := Tables.RowsOf(t);
    ReferenceUpdateSize(assignments, filters, rows);
    forall i | 0 <= i < |t| ensures after[i].row == ReferenceUpdate(assignments, filters, rows)[i] {
      ReferenceUpdateAt(assignments, filters, rows, i);
      UpdatedIsMerged(t[i].row, assignments);
    }
    assert Tables.RowsOf(after) == ReferenceUpdate(assignments, filters, rows);
  }

  lemma {:induction false} WithoutIsDelete(t: Table, keys: seq<Value>, filters: seq<Pred>)
    requires NeverFails(t, filters)
    requires forall i :: 0 <= i < |t| ==> (t[i].pk in keys <==> Tables.Matched(t[i].row, filters))
    ensures Tables.RowsOf(Tables.Without(t, keys)) == ReferenceDelete(filters, Tables.RowsOf(t))
  {
    if t != [] {
      WithoutIsDelete(t[1..], keys, filters);
      assert Tables.RowsOf(t)[1..] == Tables.RowsOf(t[1..]);
      var rest := Tables.Without(t[1..], keys);
      assert Tables.RowsOf([t[0]] + rest) == [t[0].row] + Tables.RowsOf(rest);
      assert [] + rest == rest;
    }
  }

  lemma EngineDeletes(model: Tables.Model, t: Table, filters: seq<Pred>)
    requires NeverFails(t, filters) && Tables.Keyed(t)
    ensures Tables.RowsOf(Tables.Mutate(model, t, Tables.Delete(filters)).0) == ReferenceDelete(filters, Tables.RowsOf(t))
  {
    Tables.MatchingKeysMatch(t, filters, |t|);
    WithoutIsDelete(t, Tables.MatchingKeys(t, filters, |t|), filters);
  }

  // ----- UPDATE -----

  /** The row ends up with the assigned key, or has it already. */
  predicate Touched(t: Table, filters: seq<Pred>, pk: Value, i: nat)
    requires i < |t|
  {
    Tables.Matched(t[i].row, filters) || t[i].pk == pk
  }

  /** The primary key accepts the update: it is not assigned, or no row matches, or it is assigned a value
      that only one row ends up with. */
  ghost predicate KeyAccepts(key: string, t: Table, filters: seq<Pred>, assignments: Row) {
    || key !in assignments
    || (forall i :: 0 <= i < |t| ==> !Tables.Matched(t[i].row, filters))
    || (&& !assignments[key].Null?
        && forall i, j :: 0 <= i < j < |t| ==> !(Touched(t, filters, assignments[key], i) && Touched(t, filters, assignments[key], j)))
  }

  lemma KeyAfterUpdate(model: Tables.Model, t: Table, filters: seq<Pred>, assignments: Row, i: nat)
    requires NeverFails(t, filters) && Tables.Consistent(model, t) && i < |t|
    ensures FieldOf(Tables.UpdateRows(t, filters, assignments).0[i].row, model.key) ==
      if model.key in assignments && Tables.Matched(t[i].row, filters) then assignments[model.key] else t[i].pk
  {
    hide Tables.Matched;
    assert FieldOf(t[i].row, model.key) == t[i].pk;
  }

  ghost predicate AtMostOne(ks: seq<Value>, hit: seq<bool>, v: Value)
    requires |hit| == |ks|
  {
    forall i, j :: 0 <= i < j < |ks| ==> !((hit[i] || ks[i] == v) && (hit[j] || ks[j] == v))
  }

  /** Distinct keys, some replaced by one value, stay distinct if only one row has that value in the end. */
  lemma ReplacedKeys(ks: seq<Value>, hit: seq<bool>, v: Value, after: seq<Value>)
    requires |ks| == |hit| == |after| && forall i :: 0 <= i < |ks| ==> !ks[i].Null? && after[i] == if hit[i] then v else ks[i]
    requires forall i, j :: 0 <= i < j < |ks| ==> ks[i] != ks[j]
    ensures
      (forall i :: 0 <= i < |ks| ==> !after[i].Null?) && (forall i, j :: 0 <= i < j < |ks| ==> after[i] != after[j])
      <==> (forall i :: 0 <= i < |ks| ==> !hit[i]) || (!v.Null? && AtMostOne(ks, hit, v))
  {
    if (exists m :: 0 <= m < |ks| && hit[m])
      && (forall i :: 0 <= i < |ks| ==> !after[i].Null?) && (forall i, j :: 0 <= i < j < |ks| ==> after[i] != after[j])
    {
      var m :| 0 <= m < |ks| && hit[m];
      assert after[m] == v;
      forall i, j | 0 <= i < j < |ks| ensures !((hit[i] || ks[i] == v) && (hit[j] || ks[j] == v)) {
        assert after[i] != after[j];
      }
    }
    if !v.Null? && AtMostOne(ks, hit, v) {
      forall i, j | 0 <= i < j < |ks| ensures after[i] != after[j] {
        assert !((hit[i] || ks[i] == v) && (hit[j] || ks[j] == v));
      }
    }
  }

  lemma KeyedAfterUpdate(model: Tables.Model, t: Table, filters: seq<Pred>, assignments: Row)
    requires NeverFails(t, filters) && Tables.Consistent(model, t) && Tables.Keyed(t)
    ensures KeyedBy(model.key, Tables.RowsOf(Tables.UpdateRows(t, filters, assignments).0)) <==>
      KeyAccepts(model.key, t, filters, assignments)
  {
    hide Tables.Matched, Tables.UpdateRows, FieldOf, NeverFails;
    var rows := Tables.RowsOf(Tables.UpdateRows(t, filters, assignments).0);
    UpdateSize(t, filters, assignments);
    forall i | 0 <= i < |t|
      ensures FieldOf(rows[i], model.key) ==
        if model.key in assignments && Tables.Matched(t[i].row, filters) then assignments[model.key] else t[i].pk
    {
      KeyAfterUpdate(model, t, filters, assignments, i);
    }
    if model.key in assignments {
      var ks := seq(|t|, i requires 0 <= i < |t| => t[i].pk);
      var hit := seq(|t|, i requires 0 <= i < |t| => Tables.Matched(t[i].row, filters));
      var after := seq(|t|, i requires 0 <= i < |t| && i < |rows| => FieldOf(rows[i], model.key));
      ReplacedKeys(ks, hit, assignments[model.key], after);
      SameKeys(model.key, rows, after);
      TouchedAre(t, filters, assignments[model.key], ks, hit);
    }
  }

  lemma SameKeys(key: string, rows: seq<Row>, after: seq<Value>)
    requires |rows| == |after| && forall i :: 0 <= i < |rows| ==> after[i] == FieldOf(rows[i], key)
    ensures KeyedBy(key, rows) <==>
      (forall i :: 0 <= i < |after| ==> !after[i].Null?) && (forall i, j :: 0 <= i < j < |after| ==> after[i] != after[j])
  {
    hide FieldOf;
  }

  lemma TouchedAre(t: Table, filters: seq<Pred>, v: Value, ks: seq<Value>, hit: seq<bool>)
    requires |ks| == |hit| == |t|
    requires forall i :: 0 <= i < |t| ==> ks[i] == t[i].pk && hit[i] == Tables.Matched(t[i].row, filters)
    ensures AtMostOne(ks, hit, v) <==>
      forall i, j :: 0 <= i < j < |t| ==> !(Touched(t, filters, v, i) && Touched(t, filters, v, j))
  {
    hide Tables.Matched;
    forall i | 0 <= i < |t| ensures Touched(t, filters, v, i) <==> hit[i] || ks[i] == v {
    }
  }

  lemma UpdateSize(t: Table, filters: seq<Pred>, assignments: Row)
    ensures |Tables.UpdateRows(t, filters, assignments).0| == |t|
  {
  }

  /** The columns accept the update: they exist, and their types admit the values, unless no row gets them. */
  ghost predicate ColumnsAccept(types: Schema, t: Table, filters: seq<Pred>, assignments: Assignments) {
    && (forall i :: 0 <= i < |assignments| ==> assignments[i].0 in types)
    && ((forall i :: 0 <= i < |t| ==> !Tables.Matched(t[i].row, filters)) || Fits(types, DictOf(assignments)))
  }

  lemma MergedConforms(types: Schema, row: Row, assignments: Row)
    requires Conforms(row, types) && forall c :: c in assignments ==> c in types
    ensures Conforms(Tables.Merged(row, assignments), types) <==> Fits(types, assignments)
  {
    var after := Tables.Merged(row, assignments);
    if Conforms(after, types) {
      forall c | c in assignments ensures OfType(assignments[c], types[c]) {
        assert after[c] == assignments[c];
      }
    }
  }

  lemma {:induction false} DictOfNames(assignments: Assignments, types: Schema)
    ensures (forall i :: 0 <= i < |assignments| ==> assignments[i].0 in types) <==> forall c :: c in DictOf(assignments) ==> c in types
  {
    hide DictOf;
    forall c ensures c in DictOf(assignments) <==> c in Keys(assignments) {
      DictOfKeys(assignments, c);
    }
    if forall c :: c in DictOf(assignments) ==> c in types {
      forall i | 0 <= i < |assignments| ensures assignments[i].0 in types {
        assert Keys(assignments)[i] in Keys(assignments);
      }
    }
  }

  /** The outcome of an update is well typed exactly if the columns accept it. */
  lemma {:induction false} TypedAfterUpdate(types: Schema, t: Table, filters: seq<Pred>, assignments: Assignments)
    requires NeverFails(t, filters) && (forall i :: 0 <= i < |t| ==> Conforms(t[i].row, types))
    requires forall i :: 0 <= i < |assignments| ==> assignments[i].0 in types
    ensures AllConform(types, Tables.RowsOf(Tables.UpdateRows(t, filters, DictOf(assignments)).0)) <==>
      ColumnsAccept(types, t, filters, assignments)
  {
    hide Conforms, Tables.Merged, Fits, DictOf;
    var dict := DictOf(assignments);
    var rows := Tables.RowsOf(Tables.UpdateRows(t, filters, dict).0);
    UpdateSize(t, filters, dict);
    DictOfNames(assignments, types);
    forall i | 0 <= i < |t| ensures Conforms(rows[i], types) <==> !Tables.Matched(t[i].row, filters) || Fits(types, dict) {
      MergedConforms(types, t[i].row, dict);
      RowAfterUpdate(t, filters, dict, i);
    }
  }

  lemma RowAfterUpdate(t: Table, filters: seq<Pred>, assignments: Row, i: nat)
    requires NeverFails(t, filters) && i < |t|
    ensures Tables.UpdateRows(t, filters, assignments).0[i].row ==
      if Tables.Matched(t[i].row, filters) then Tables.Merged(t[i].row, assignments) else t[i].row
  {
  }

  /** The compiled UPDATE leaves the rows the engine's update leaves, unless it is refused: exactly if it
      assigns a column that the table does not have, or gives some row a value of another type, or where
      the engine would leave two rows with one key, or one without. */
  lemma BackendsAgreeOnUpdate(d: Dialect, name: string, model: Tables.Model, t: Table, assignments: Assignments,
                              filters: seq<Pred>, types: Schema)
    requires assignments != [] && Suits(filters, types, Tables.RowsOf(t))
    requires Tables.Consistent(model, t) && Tables.Keyed(t)
    ensures
      var m := ParseMutation(Lex(d, TextOf(d, UpdatePhrase(name, assignments, filters)), 0));
      && m.Some?
      && Mutated(model.key, types, m.value, AssignedValues(assignments) + ValuesIn(filters), Tables.RowsOf(t)) ==
         if ColumnsAccept(types, t, filters, assignments) && KeyAccepts(model.key, t, filters, DictOf(assignments))
         then Some(Tables.RowsOf(Tables.Mutate(model, t, Tables.Update(filters, DictOf(assignments))).0)) else None
  {
    hide Apply, ParseMutation, UpdatePhrase, Suits, NeverFails, KeyAccepts, KeyedBy, ReferenceUpdate, Tables.UpdateRows,
      AllConform, DictOf, Conforms, Fits;
    SuitedFiltersKnown(filters, |assignments|, types, Tables.RowsOf(t));
    RowsConform(t, filters, types);
    SuitsNeverFails(t, filters, types);
    EngineUpdates(model, t, assignments, filters);
    KeyedAfterUpdate(model, t, filters, DictOf(assignments));
    ApplyUpdate(name, Tables.RowsOf(t), assignments, filters, types);
    UpdateRoundTrip(d, name, assignments, filters);
    if forall i :: 0 <= i < |assignments| ==> assignments[i].0 in types {
      TypedAfterUpdate(types, t, filters, assignments);
    } else {
      assert !MutationKnown(Update(name, Targets(assignments, 0), WhereCond(filters, |assignments|)), types.Keys);
    }
  }

  lemma RowsConform(t: Table, filters: seq<Pred>, types: Schema)
    requires Suits(filters, types, Tables.RowsOf(t))
    ensures forall i :: 0 <= i < |t| ==> Conforms(t[i].row, types)
  {
    forall i | 0 <= i < |t| ensures Conforms(t[i].row, types) {
      assert Tables.RowsOf(t)[i] in Tables.RowsOf(t);
    }
  }

  // ----- DELETE -----

  /** The compiled DELETE leaves the rows the engine's delete leaves. */
  lemma BackendsAgreeOnDelete(d: Dialect, name: string, model: Tables.Model, t: Table, filters: seq<Pred>, types: Schema)
    requires Tables.Keyed(t) && Suits(filters, types, Tables.RowsOf(t))
    ensures
      var m := ParseMutation(Lex(d, TextOf(d, DeletePhrase(name, filters)), 0));
      && m.Some?
      && Apply(m.value, ValuesIn(filters), Tables.RowsOf(t)) == Tables.RowsOf(Tables.Mutate(model, t, Tables.Delete(filters)).0)
      && Mutated(model.key, types, m.value, ValuesIn(filters), Tables.RowsOf(t)) ==
           Checked(model.key, types, Tables.RowsOf(Tables.Mutate(model, t, Tables.Delete(filters)).0))
  {
    SuitedFiltersKnown(filters, 0, types, Tables.RowsOf(t));
    SuitsNeverFails(t, filters, types);
    EngineDeletes(model, t, filters);
    ApplyDelete(name, Tables.RowsOf(t), filters, types);
    DeleteRoundTrip(d, name, filters);
  }

  // ----- INSERT -----

  function NormalizedDicts(model: Tables.Model, rows: seq<Row>): (r: seq<Row>)
    ensures |r| == |rows| && forall i :: 0 <= i < |r| ==> r[i] == Tables.Normalized(model, rows[i])
  {
    seq(|rows|, i requires 0 <= i < |rows| => Tables.Normalized(model, rows[i]))
  }

  lemma KeyedPrefix(key: string, rows: seq<Row>, more: seq<Row>)
    requires KeyedBy(key, rows + more)
    ensures KeyedBy(key, rows)
  {
    assert forall i :: 0 <= i < |rows| ==> (rows + more)[i] == rows[i];
  }

  /** One more row is accepted if it has a key and no stored row has it. */
  lemma OneMoreKeyed(model: Tables.Model, t: Table, row: Row)
    requires Tables.Consistent(model, t) && Tables.Keyed(t)
    ensures
      var pk := FieldOf(row, model.key);
      KeyedBy(model.key, Tables.RowsOf(t) + [row]) <==> !pk.Null? && !Tables.Holds(t, pk)
  {
    hide FieldOf;
    var pk := FieldOf(row, model.key);
    var rows := Tables.RowsOf(t) + [row];
    assert rows[|t|] == row && forall i :: 0 <= i < |t| ==> rows[i] == t[i].row;
    if Tables.Holds(t, pk) {
      assert FieldOf(rows[Tables.Position(t, pk)], model.key) == FieldOf(rows[|t|], model.key);
    } else {
      NotHeld(t, pk);
    }
  }

  lemma NotHeld(t: Table, pk: Value)
    requires !Tables.Holds(t, pk)
    ensures forall i :: 0 <= i < |t| ==> t[i].pk != pk
  {
  }

  /** The engine stores all rows exactly if the primary key would accept them all. */
  lemma {:induction false} EngineInserts(model: Tables.Model, t: Table, rows: seq<Row>)
    requires Tables.Consistent(model, t) && Tables.Keyed(t)
    ensures
      var engine := Tables.InsertRows(model, t, rows, Tables.Reject);
      var all := Tables.RowsOf(t) + NormalizedDicts(model, rows);
      && (engine.1.Done? <==> KeyedBy(model.key, all))
      && (engine.1.Done? ==> Tables.RowsOf(engine.0) == all)
    decreases |rows|
  {
    hide FieldOf, KeyedBy, Tables.Consistent, Tables.Keyed, Tables.Normalized;
    var all := Tables.RowsOf(t) + NormalizedDicts(model, rows);
    if rows == [] {
      assert all == Tables.RowsOf(t);
      StoredIsKeyed(model, t);
    } else {
      var row := Tables.Normalized(model, rows[0]);
      var pk := FieldOf(row, model.key);
      OneMoreKeyed(model, t, row);
      assert NormalizedDicts(model, rows) == [row] + NormalizedDicts(model, rows[1..]);
      AppendTwice(Tables.RowsOf(t), [row], NormalizedDicts(model, rows[1..]));
      if pk.Null? || Tables.Holds(t, pk) {
        if KeyedBy(model.key, all) {
          KeyedPrefix(model.key, Tables.RowsOf(t) + [row], NormalizedDicts(model, rows[1..]));
        }
      } else {
        Tables.PutKeeps(model, t, pk, row);
        assert Tables.RowsOf(Tables.Put(t, pk, row)) == Tables.RowsOf(t) + [row];
        EngineInserts(model, Tables.Put(t, pk, row), rows[1..]);
      }
    }
  }

  lemma StoredIsKeyed(model: Tables.Model, t: Table)
    requires Tables.Consistent(model, t) && Tables.Keyed(t)
    ensures KeyedBy(model.key, Tables.RowsOf(t))
  {
  }

  lemma WithoutOne(m: Row, n: string, v: Value, gone: set<string>)
    ensures m[n := v] - gone == if n in gone then m - gone else (m - gone)[n := v]
  {
  }

  lemma {:induction false} NormalizedIs(collections: set<string>, row: Assignments)
    ensures DictOf(NormalizedRow(collections, row)) == DictOf(row) - collections
    decreases |row|
  {
    hide DictOf;
    if row == [] {
      NoItems();
    } else {
      var k := |row| - 1;
      NormalizedIs(collections, row[..k]);
      DictOfMore(row[..k], row[k]);
      DictOfMore(NormalizedRow(collections, row[..k]), row[k]);
      WithoutOne(DictOf(row[..k]), row[k].0, row[k].1, collections);
      assert row[..k] + [row[k]] == row;
      assert NormalizedRow(collections, row[..k]) + [] == NormalizedRow(collections, row[..k]);
    }
  }

  lemma NoItems()
    ensures DictOf([]) == map[]
  {
  }

  lemma {:induction false} DictOfMore(row: Assignments, item: (string, Value))
    ensures DictOf(row + [item]) == DictOf(row)[item.0 := item.1]
  {
    if row == [] {
      assert [] + [item] == [item] && [item][1..] == [];
    } else {
      assert (row + [item])[1..] == row[1..] + [item];
      DictOfMore(row[1..], item);
    }
  }

  function DictsOf(rows: seq<Assignments>): (r: seq<Row>)
    ensures |r| == |rows| && forall i :: 0 <= i < |r| ==> r[i] == DictOf(rows[i])
  {
    seq(|rows|, i requires 0 <= i < |rows| => DictOf(rows[i]))
  }

  lemma PaddedKeyed(types: Schema, key: string, rows: seq<Row>)
    requires key in types
    ensures KeyedBy(key, PaddedRows(types, rows)) <==> KeyedBy(key, rows)
  {
    forall i | 0 <= i < |rows| ensures FieldOf(PaddedRows(types, rows)[i], key) == FieldOf(rows[i], key) {
      PaddedField(types, rows[i], key);
    }
  }

  /** What the database does with the compiled rows: all of them or none. */
  lemma DatabaseInserts(model: Model, types: Schema, key: string, stored: seq<Row>, rows: seq<Assignments>, ins: Insertion)
    requires key in types && forall r :: r in stored ==> Conforms(r, types)
    requires ins.columns == InsertColumns(model, rows) && ins.tuples == TupleTerms(0, |rows|, |ins.columns|)
    ensures
      var all := stored + DictsOf(rows);
      Inserted(key, types, ins, Matrix(rows, ins.columns), stored) ==
        if RowsFit(types, rows) && KeyedBy(key, all) then Some(PaddedRows(types, all)) else None
  {
    hide KeyedBy, Matrix, InsertColumns, DictOf, Padded, Conforms, InsertedRow, TupleTerms, Fits;
    ColumnsOfRows(model, types, rows);
    if forall c :: c in ins.columns ==> c in types {
      CheckedInsert(model, types, key, stored, rows, ins);
    }
  }

  /** Every field of every row is a column, with a value of its type. */
  predicate RowsFit(types: Schema, rows: seq<Assignments>) {
    forall r :: 0 <= r < |rows| ==> Fits(types, DictOf(rows[r]))
  }

  /** The columns of an INSERT exist if and only if every field is one. */
  lemma ColumnsOfRows(model: Model, types: Schema, rows: seq<Assignments>)
    ensures (forall c :: c in InsertColumns(model, rows) ==> c in types) <==>
      forall r, c :: 0 <= r < |rows| && c in DictOf(rows[r]) ==> c in types
    ensures RowsFit(types, rows) ==> forall c :: c in InsertColumns(model, rows) ==> c in types
  {
    hide DictOf, InsertColumns;
    ColumnsHoldEveryKeyOnce(model, rows);
    forall r, c | 0 <= r < |rows| ensures c in DictOf(rows[r]) <==> c in Keys(rows[r]) {
      DictOfKeys(rows[r], c);
    }
  }

  lemma {:induction false} CheckedInsert(model: Model, types: Schema, key: string, stored: seq<Row>, rows: seq<Assignments>,
                                         ins: Insertion)
    requires key in types && forall r :: r in stored ==> Conforms(r, types)
    requires ins.columns == InsertColumns(model, rows) && ins.tuples == TupleTerms(0, |rows|, |ins.columns|)
    requires forall c :: c in ins.columns ==> c in types
    ensures
      var all := stored + DictsOf(rows);
      Checked(key, types, stored + InsertedRows(types, ins, Matrix(rows, ins.columns))) ==
        if RowsFit(types, rows) && KeyedBy(key, all) then Some(PaddedRows(types, all)) else None
  {
    hide KeyedBy, Matrix, InsertColumns, DictOf, Padded, Conforms, TupleTerms, Fits, InsertedRow, RowsFit, AllConform;
    var all := stored + DictsOf(rows);
    PaddedTogether(model, types, stored, rows, ins);
    PaddedKeyed(types, key, all);
    ColumnsOfRows(model, types, rows);
    PaddedConform(types, stored, rows);
  }

  lemma {:induction false} InsertedConforms(types: Schema, stored: seq<Row>, rows: seq<Assignments>, r: nat)
    requires r < |rows| && forall c :: c in DictOf(rows[r]) ==> c in types
    ensures Conforms(PaddedRows(types, stored + DictsOf(rows))[|stored| + r], types) <==> Fits(types, DictOf(rows[r]))
  {
    hide DictOf, Padded, Conforms, Fits;
    assert (stored + DictsOf(rows))[|stored| + r] == DictOf(rows[r]);
    PaddedFits(types, DictOf(rows[r]));
  }

  lemma {:induction false} StoredConforms(types: Schema, stored: seq<Row>, rows: seq<Assignments>, i: nat)
    requires i < |stored| && Conforms(stored[i], types)
    ensures Conforms(PaddedRows(types, stored + DictsOf(rows))[i], types)
  {
    hide DictOf, Padded, Conforms;
    assert (stored + DictsOf(rows))[i] == stored[i];
    PaddedConforming(types, stored[i]);
  }

  /** All padded rows are well typed if the inserted ones fit. */
  lemma {:induction false} PaddedConform(types: Schema, stored: seq<Row>, rows: seq<Assignments>)
    requires (forall r :: r in stored ==> Conforms(r, types)) && forall r, c :: 0 <= r < |rows| && c in DictOf(rows[r]) ==> c in types
    ensures AllConform(types, PaddedRows(types, stored + DictsOf(rows))) <==> RowsFit(types, rows)
  {
    hide DictOf, Conforms, Fits, RowsFit, AllConform, PaddedRows, DictsOf;
    forall r | 0 <= r < |rows|
      ensures Conforms(PaddedRows(types, stored + DictsOf(rows))[|stored| + r], types) <==> Fits(types, DictOf(rows[r]))
    {
      InsertedConforms(types, stored, rows, r);
    }
    forall i | 0 <= i < |stored| ensures Conforms(PaddedRows(types, stored + DictsOf(rows))[i], types) {
      assert stored[i] in stored;
      StoredConforms(types, stored, rows, i);
    }
    AllOfBoth(types, PaddedRows(types, stored + DictsOf(rows)), |stored|, rows);
  }

  /** The stored rows and the inserted ones are all rows, padded. */
  lemma {:induction false} PaddedTogether(model: Model, types: Schema, stored: seq<Row>, rows: seq<Assignments>, ins: Insertion)
    requires forall r :: r in stored ==> Conforms(r, types)
    requires ins.columns == InsertColumns(model, rows) && ins.tuples == TupleTerms(0, |rows|, |ins.columns|)
    ensures stored + InsertedRows(types, ins, Matrix(rows, ins.columns)) == PaddedRows(types, stored + DictsOf(rows))
  {
    hide Matrix, InsertColumns, DictOf, Padded, Conforms, InsertedRow, TupleTerms, FieldOf;
    var all := stored + DictsOf(rows);
    var after := stored + InsertedRows(types, ins, Matrix(rows, ins.columns));
    InsertAddsTheRows(model, types, rows, ins);
    forall i | 0 <= i < |all| ensures after[i] == Padded(types, all[i]) {
      if i < |stored| {
        assert stored[i] in stored;
        PaddedConforming(types, stored[i]);
      } else {
        assert after[i] == InsertedRows(types, ins, Matrix(rows, ins.columns))[i - |stored|];
      }
    }
  }

  lemma {:induction false} AllOfBoth(types: Schema, after: seq<Row>, n: nat, rows: seq<Assignments>)
    requires |after| == n + |rows|
    requires forall i :: 0 <= i < n ==> Conforms(after[i], types)
    requires forall r :: 0 <= r < |rows| ==> (Conforms(after[n + r], types) <==> Fits(types, DictOf(rows[r])))
    ensures AllConform(types, after) <==> RowsFit(types, rows)
  {
    hide Conforms, Fits, DictOf;
    if RowsFit(types, rows) {
      forall i | 0 <= i < |after| ensures Conforms(after[i], types) {
        if i >= n {
          assert Fits(types, DictOf(rows[i - n]));
        }
      }
    }
  }

  /** The compiled INSERT is accepted exactly when the engine's insert succeeds and every field is a column
      with a value of its type, and then leaves the same rows, absent fields as null. When it is refused the table stays as it was, while the engine keeps the
      rows before the failing one. */
  lemma BackendsAgreeOnInsert(d: Dialect, model: Model, key: string, t: Table, raw: seq<Assignments>, types: Schema)
    requires raw != []
    requires key in types && forall r :: r in Tables.RowsOf(t) ==> Conforms(r, types)
    requires Tables.Consistent(Tables.Model(key, model.collections), t) && Tables.Keyed(t)
    ensures
      var rows := NormalizedRows(model.collections, raw);
      var columns := InsertColumns(model, rows);
      var ins := ParseInsertion(Lex(d, TextOf(d, InsertPhrase(d, model.name, Tables.Reject, columns, |rows|)), 0));
      var engine := Tables.Mutate(Tables.Model(key, model.collections), t, Tables.Insert(DictsOf(raw), Tables.Reject));
      && (ins.None? ==> engine.1.Failed?)
      && (ins.Some? ==>
           Inserted(key, types, ins.value, Matrix(rows, columns), Tables.RowsOf(t)) ==
             if engine.1.Done? && RowsFit(types, rows) then Some(PaddedRows(types, Tables.RowsOf(engine.0))) else None)
  {
    hide KeyedBy, Matrix, InsertColumns, DictOf, Conforms, RowsFit, NormalizedRow, InsertPhrase, ParseInsertion, Inserted, Tables.InsertRows,
      Tables.Consistent, Tables.Keyed;
    var m := Tables.Model(key, model.collections);
    var rows := NormalizedRows(model.collections, raw);
    var columns := InsertColumns(model, rows);
    forall i | 0 <= i < |raw| ensures DictOf(rows[i]) == Tables.Normalized(m, DictOf(raw[i])) {
      NormalizedIs(model.collections, raw[i]);
    }
    assert DictsOf(rows) == NormalizedDicts(m, DictsOf(raw));
    EngineInserts(m, t, DictsOf(raw));
    InsertRoundTrip(d, model.name, Tables.Reject, columns, |rows|);
    if columns == [] {
      NoColumnsNoKey(model, key, t, rows);
    } else {
      DatabaseInserts(model, types, key, Tables.RowsOf(t), rows, InsertionOf(d, model.name, Tables.Reject, columns, |rows|));
    }
  }

  lemma NoColumnsNoKey(model: Model, key: string, t: Table, rows: seq<Assignments>)
    requires rows != [] && InsertColumns(model, rows) == []
    ensures !KeyedBy(key, Tables.RowsOf(t) + DictsOf(rows))
  {
    hide DictOf;
    ColumnsHoldEveryKeyOnce(model, rows);
    DictOfKeys(rows[0], key);
    assert key !in InsertColumns(model, rows);
    assert (Tables.RowsOf(t) + DictsOf(rows))[|t|] == DictOf(rows[0]);
  }
}
