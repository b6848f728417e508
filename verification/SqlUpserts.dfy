/**
  Upsert on a SQL database, three compiled statements deep (probe, then update or insert), against the
  reference engine's upsert: where the two leave the same rows, and where they cannot.
 */
module SqlUpserts {
  import opened Values
  import opened Predicates
  import opened SqlText
  import opened SqlCompiler
  import opened SqlAgreement
  import opened SqlStatements
  import opened SqlExecution
  import opened Selects
  import opened SqlMutations
  import opened SqlCounting
  import opened SqlInserts
  import opened SqlInsertParsing
  import opened SqlDatabase
  import opened SqlAgainstEngine
  import Tables

  /** One equality per key field. */
  function KeyFilters(key: Assignments): (r: seq<Pred>)
    ensures |r| == |key|
    ensures forall i :: 0 <= i < |key| ==> r[i] == Compare(Eq, FieldRef(key[i].0, []), Literal(key[i].1))
  {
    seq(|key|, i requires 0 <= i < |key| => Compare(Eq, FieldRef(key[i].0, []), Literal(key[i].1)))
  }

  ghost predicate DistinctFields(key: Assignments) {
    forall i, j :: 0 <= i < j < |key| ==> key[i].0 != key[j].0
  }

  datatype Outcome = Upserted(rows: seq<Row>) | Refused

  // ----- the filters of a key -----

  lemma {:induction false} DictOfAvoids(key: Assignments, n: string)
    requires forall i :: 0 <= i < |key| ==> key[i].0 != n
    ensures n !in DictOf(key)
  {
    if key != [] {
      DictOfAvoids(key[1..], n);
    }
  }

  lemma {:induction false} DictOfHolds(key: Assignments, i: nat)
    requires DistinctFields(key) && i < |key|
    ensures key[i].0 in DictOf(key) && DictOf(key)[key[i].0] == key[i].1
  {
    if i > 0 {
      DictOfHolds(key[1..], i - 1);
    } else {
      DictOfAvoids(key[1..], key[0].0);
    }
  }

  lemma {:induction false} DictOfFrom(key: Assignments, n: string) returns (i: nat)
    requires n in DictOf(key)
    ensures i < |key| && key[i].0 == n
  {
    if n in DictOf(key[1..]) {
      i := DictOfFrom(key[1..], n);
      i := i + 1;
    } else {
      i := 0;
    }
  }

  lemma {:induction false} KeyMatches(row: Row, key: Assignments)
    ensures MatchesAll(row, KeyFilters(key)) == Ok(forall i :: 0 <= i < |key| ==> FieldOf(row, key[i].0) == key[i].1)
    decreases |key|
  {
    if key != [] {
      KeyMatches(row, key[1..]);
      assert KeyFilters(key)[1..] == KeyFilters(key[1..]);
      assert forall i :: 0 < i < |key| ==> key[i] == key[1..][i - 1];
    }
  }

  /** The key filters hold of exactly the rows that the engine's upsert looks for. */
  lemma KeyFiltersFindTheKey(row: Row, key: Assignments)
    requires DistinctFields(key)
    ensures MatchesAll(row, KeyFilters(key)).Ok?
    ensures Tables.Matched(row, KeyFilters(key)) <==> Tables.Agrees(row, DictOf(key))
  {
    KeyMatches(row, key);
    forall i | 0 <= i < |key| ensures key[i].0 in DictOf(key) && DictOf(key)[key[i].0] == key[i].1 {
      DictOfHolds(key, i);
    }
    forall n | n in DictOf(key) ensures exists i :: 0 <= i < |key| && key[i].0 == n {
      var i := DictOfFrom(key, n);
    }
  }

  /** The probe finds a row exactly when the engine's upsert does. */
  lemma {:induction false} ProbeFindsTheKey(t: Tables.Table, key: Assignments)
    requires DistinctFields(key)
    ensures Filtered(Tables.RowsOf(t), KeyFilters(key)) != [] <==> Tables.FirstAgreeing(t, DictOf(key)) < |t|
  {
    if t != [] {
      hide Tables.Agrees, Tables.Matched;
      KeyFiltersFindTheKey(t[0].row, key);
      ProbeFindsTheKey(t[1..], key);
      assert Tables.RowsOf(t)[1..] == Tables.RowsOf(t[1..]);
      MatchedIs(t[0].row, KeyFilters(key));
    }
  }

  lemma MatchedIs(row: Row, filters: seq<Pred>)
    ensures Tables.Matched(row, filters) <==> MatchesAll(row, filters) == Ok(true)
  {
  }

  // ----- the two upserts -----

  /** When a row has the key, both backends leave the same rows exactly if the values change no row
      with the key after the first: the engine updates one row, the UPDATE all of them. */
  lemma UpsertsOfAnExistingRow(model: Tables.Model, t: Tables.Table, key: Assignments, values: Assignments)
    requires DistinctFields(key)
    requires Tables.FirstAgreeing(t, DictOf(key)) < |t|
    ensures
      var first := Tables.FirstAgreeing(t, DictOf(key));
      var engine := Tables.Mutate(model, t, Tables.Upsert(DictOf(key), DictOf(values))).0;
      ReferenceUpdate(values, KeyFilters(key), Tables.RowsOf(t)) == Tables.RowsOf(engine) <==>
        forall i :: first < i < |t| && Tables.Agrees(t[i].row, DictOf(key)) ==> Tables.Merged(t[i].row, DictOf(values)) == t[i].row
  {
    hide ReferenceUpdate, Tables.Mutate, Tables.Merged, Tables.Agrees, DictOf, KeyFilters, DistinctFields;
    var first := Tables.FirstAgreeing(t, DictOf(key));
    var engine := Tables.Mutate(model, t, Tables.Upsert(DictOf(key), DictOf(values))).0;
    var sql := ReferenceUpdate(values, KeyFilters(key), Tables.RowsOf(t));
    EngineUpserts(model, t, key, values);
    ReferenceUpdateSize(values, KeyFilters(key), Tables.RowsOf(t));
    forall i | 0 <= i < |t|
      ensures sql[i] == if Tables.Agrees(t[i].row, DictOf(key)) then Tables.Merged(t[i].row, DictOf(values)) else t[i].row
    {
      UpsertedAt(t, key, values, i);
    }
    Extensional(sql, Tables.RowsOf(engine));
  }

  lemma Extensional<T>(a: seq<T>, b: seq<T>)
    requires |a| == |b|
    ensures a == b <==> forall i :: 0 <= i < |a| ==> a[i] == b[i]
  {
  }

  lemma EngineUpserts(model: Tables.Model, t: Tables.Table, key: Assignments, values: Assignments)
    requires Tables.FirstAgreeing(t, DictOf(key)) < |t|
    ensures
      var first := Tables.FirstAgreeing(t, DictOf(key));
      var rows := Tables.RowsOf(Tables.Mutate(model, t, Tables.Upsert(DictOf(key), DictOf(values))).0);
      |rows| == |t| && forall i :: 0 <= i < |t| ==> rows[i] == if i == first then Tables.Merged(t[i].row, DictOf(values)) else t[i].row
  {
    hide Tables.Merged, Tables.Agrees, DictOf;
  }

  lemma UpsertedAt(t: Tables.Table, key: Assignments, values: Assignments, i: nat)
    requires DistinctFields(key) && i < |t|
    requires i < |ReferenceUpdate(values, KeyFilters(key), Tables.RowsOf(t))|
    ensures ReferenceUpdate(values, KeyFilters(key), Tables.RowsOf(t))[i] ==
      if Tables.Agrees(t[i].row, DictOf(key)) then Tables.Merged(t[i].row, DictOf(values)) else t[i].row
  {
    ReferenceUpdateAt(values, KeyFilters(key), Tables.RowsOf(t), i);
    KeyFiltersFindTheKey(t[i].row, key);
    UpdatedIsMerged(t[i].row, values);
  }

  // ----- the tables and the values -----

  /** The table exists with these columns, and holds exactly the rows of the engine's. */
  ghost predicate Stored(model: Model, key: string, types: Schema, t: Tables.Table) {
    && NameFault(model.name, false).None? && key in types
    && (forall c :: c in types ==> NameFault(c, false).None?)
    && (forall r :: r in Tables.RowsOf(t) ==> Conforms(r, types))
    && Tables.Keyed(t) && Tables.Consistent(Tables.Model(key, model.collections), t)
  }

  /** The fields are columns of the table, and the values are of their types. */
  predicate FitsColumns(model: Model, types: Schema, items: Assignments) {
    forall i :: 0 <= i < |items| ==>
      && items[i].0 in types && OfType(items[i].1, types[items[i].0]) && items[i].0 !in model.collections
  }

  lemma {:induction false} NothingDropped(model: Model, types: Schema, items: Assignments)
    requires FitsColumns(model, types, items)
    ensures NormalizedRow(model.collections, items) == items
    decreases |items|
  {
    if items != [] {
      NothingDropped(model, types, items[..|items| - 1]);
      assert items[..|items| - 1] + [items[|items| - 1]] == items;
    }
  }

  lemma {:induction false} FieldsQuote(types: Schema, names: seq<string>)
    requires (forall c :: c in types ==> NameFault(c, false).None?) && forall n :: n in names ==> n in types
    ensures QuoteFault(names).None?
  {
    QuoteFaultFree(names);
  }

  lemma {:induction false} KeyFiltersCompile(key: Assignments, n: nat)
    requires n <= |key| && forall i :: 0 <= i < |key| ==> NameFault(key[i].0, false).None?
    ensures FaultIn(KeyFilters(key)[n..]).None?
    decreases |key| - n
  {
    if n < |key| {
      KeyFiltersCompile(key, n + 1);
      assert KeyFilters(key)[n..][1..] == KeyFilters(key)[n + 1..];
    }
  }

  /** The key filters are typed, and safe on every row. */
  lemma KeyFiltersSuit(model: Model, types: Schema, key: Assignments, rows: seq<Row>)
    requires FitsColumns(model, types, key) && forall r :: r in rows ==> Conforms(r, types)
    ensures Suits(KeyFilters(key), types, rows)
  {
    forall p | p in KeyFilters(key) ensures Typed(p, types) && forall r :: Safe(p, r, true) {
      var i :| 0 <= i < |key| && KeyFilters(key)[i] == p;
    }
  }

  /** The row to insert, `{**key, **values}`, as items. */
  function MergedItems(key: Assignments, values: Assignments): (r: Assignments)
    ensures |r| == |UpsertColumns(key, values)|
  {
    var columns, merged := UpsertColumns(key, values), Tables.Merged(DictOf(key), DictOf(values));
    seq(|columns|, i requires 0 <= i < |columns| => (columns[i], FieldOf(merged, columns[i])))
  }

  /** The dictionary of the items is the merged one. */
  lemma MergedItemsAre(key: Assignments, values: Assignments)
    ensures DictOf(MergedItems(key, values)) == Tables.Merged(DictOf(key), DictOf(values))
  {
    hide DictOf, FieldOf, Firsts;
    var items, merged := MergedItems(key, values), Tables.Merged(DictOf(key), DictOf(values));
    FirstsHold(Keys(key) + Keys(values));
    assert Keys(items) == UpsertColumns(key, values);
    forall n ensures n in DictOf(items) <==> n in merged {
      DictOfKeys(items, n);
      DictOfKeys(key, n);
      DictOfKeys(values, n);
      assert n in Keys(key) + Keys(values) <==> n in Keys(key) || n in Keys(values);
    }
    forall n | n in merged ensures DictOf(items)[n] == merged[n] {
      MergedItemAt(key, values, n);
    }
  }

  lemma MergedItemAt(key: Assignments, values: Assignments, n: string)
    requires n in DictOf(MergedItems(key, values)) && n in Tables.Merged(DictOf(key), DictOf(values))
    ensures DictOf(MergedItems(key, values))[n] == Tables.Merged(DictOf(key), DictOf(values))[n]
  {
    hide DictOf, Firsts;
    var items := MergedItems(key, values);
    FirstsHold(Keys(key) + Keys(values));
    var i := DictOfFrom(items, n);
    DictOfHolds(items, i);
  }

  lemma MergedItemsFit(model: Model, types: Schema, key: Assignments, values: Assignments)
    requires FitsColumns(model, types, key) && FitsColumns(model, types, values)
    ensures forall n :: n in UpsertColumns(key, values) ==> n in types && n !in model.collections
    ensures NormalizedRow(model.collections, MergedItems(key, values)) == MergedItems(key, values)
    ensures forall n :: n in InsertColumns(model, [MergedItems(key, values)]) ==> n in types
  {
    hide Firsts, InsertColumns, DictOf, FieldOf;
    var items := MergedItems(key, values);
    FirstsHold(Keys(key) + Keys(values));
    forall n | n in UpsertColumns(key, values) ensures n in types && n !in model.collections {
      assert n in Keys(key) || n in Keys(values);
    }
    NothingDroppedNames(model, items);
    ColumnsHoldEveryKeyOnce(model, [items]);
    assert Keys(items) == UpsertColumns(key, values);
  }

  lemma {:induction false} NothingDroppedNames(model: Model, items: Assignments)
    requires forall i :: 0 <= i < |items| ==> items[i].0 !in model.collections
    ensures NormalizedRow(model.collections, items) == items
    decreases |items|
  {
    if items != [] {
      NothingDroppedNames(model, items[..|items| - 1]);
      assert items[..|items| - 1] + [items[|items| - 1]] == items;
    }
  }

  lemma ValuesFit(model: Model, types: Schema, items: Assignments)
    requires FitsColumns(model, types, items)
    ensures Fits(types, DictOf(items)) && forall i :: 0 <= i < |items| ==> items[i].0 in types
  {
    hide DictOf;
    forall n | n in DictOf(items) ensures n in types && OfType(DictOf(items)[n], types[n]) {
      LastOfName(items, n);
    }
  }

  lemma {:induction false} LastOfName(items: Assignments, n: string)
    requires n in DictOf(items)
    ensures exists i :: 0 <= i < |items| && items[i] == (n, DictOf(items)[n])
  {
    if n in DictOf(items[1..]) {
      LastOfName(items[1..], n);
      var i :| 0 <= i < |items[1..]| && items[1..][i] == (n, DictOf(items[1..])[n]);
      assert items[i + 1] == (n, DictOf(items)[n]);
    } else {
      assert items[0] == (n, DictOf(items)[n]);
    }
  }

  lemma ItemsFit(model: Model, types: Schema, key: Assignments, values: Assignments)
    requires FitsColumns(model, types, key) && FitsColumns(model, types, values)
    ensures RowsFit(types, [MergedItems(key, values)])
  {
    hide DictOf, MergedItems;
    ValuesFit(model, types, key);
    ValuesFit(model, types, values);
    MergedItemsAre(key, values);
  }

  // ----- the statements -----

  /** Asks the database whether a row has the key. */
  method Exists(d: Dialect, model: Model, types: Schema, key: Assignments, rows: seq<Row>, ghost t: Tables.Table, ghost pk: string)
    returns (already: bool)
    requires Stored(model, pk, types, t) && rows == Tables.RowsOf(t)
    requires DistinctFields(key) && FitsColumns(model, types, key)
    ensures already <==> Tables.FirstAgreeing(t, DictOf(key)) < |t|
  {
    hide Probed, ParseProbe, ExistsPhrase, Suits, KeyFilters, DictOf, Filtered, FaultIn, Conforms;
    var filters := KeyFilters(key);
    assert filters[0..] == filters;
    KeyFiltersCompile(key, 0);
    var probe := CompileExists(d, model.name, filters);
    KeyFiltersSuit(model, types, key, rows);
    ExistsPreservesMeaning(d, model.name, filters, types, rows);
    ProbeFindsTheKey(t, key);
    var read := ParseProbe(Lex(d, probe.value.sql, 0));
    already := Probed(types, read.value, probe.value.params, rows) == Some(1);
  }

  /** UPDATE every row with the key. */
  method UpdateByKey(d: Dialect, model: Model, pk: string, types: Schema, key: Assignments, values: Assignments, rows: seq<Row>,
                     ghost t: Tables.Table)
    returns (r: Outcome)
    requires Stored(model, pk, types, t) && rows == Tables.RowsOf(t) && values != []
    requires DistinctFields(key) && FitsColumns(model, types, key) && FitsColumns(model, types, values)
    ensures r == if KeyAccepts(pk, t, KeyFilters(key), DictOf(values))
                 then Upserted(Tables.RowsOf(Tables.UpdateRows(t, KeyFilters(key), DictOf(values)).0)) else Refused
  {
    hide ParseMutation, UpdatePhrase, Suits, KeyFilters, DictOf, FaultIn, Mutated, KeyAccepts, Tables.UpdateRows, Conforms,
      AssignmentFault, QuoteFault, NormalizedRow, Tables.Keyed, Tables.Consistent;
    var filters := KeyFilters(key);
    assert filters[0..] == filters;
    KeyFiltersCompile(key, 0);
    NothingDropped(model, types, values);
    FieldsQuote(types, Keys(values));
    AssignmentFaultFree(values);
    var update := CompileUpdate(d, model.name, model.collections, values, filters);
    KeyFiltersSuit(model, types, key, rows);
    ValuesFit(model, types, values);
    BackendsAgreeOnUpdate(d, model.name, Tables.Model(pk, model.collections), t, values, filters, types);
    var read := ParseMutation(Lex(d, update.value.sql, 0));
    var after := Mutated(pk, types, read.value, update.value.params, rows);
    r := if after.None? then Refused else Upserted(after.value);
  }

  /** INSERT the merged row; a statement without any column is refused as no statement. */
  method InsertMerged(d: Dialect, model: Model, pk: string, types: Schema, key: Assignments, values: Assignments, rows: seq<Row>,
                      ghost t: Tables.Table)
    returns (r: Outcome)
    requires Stored(model, pk, types, t) && rows == Tables.RowsOf(t)
    requires FitsColumns(model, types, key) && FitsColumns(model, types, values)
    ensures
      var all := Tables.RowsOf(t) + [Tables.Merged(DictOf(key), DictOf(values))];
      r == if KeyedBy(pk, all) then Upserted(PaddedRows(types, all)) else Refused
  {
    hide ParseInsertion, InsertPhrase, DictOf, Inserted, KeyedBy, Conforms, QuoteFault, NormalizedRow, Tables.Keyed, Tables.Consistent,
      InsertColumns, Matrix, UpsertColumns, FieldOf, TupleTerms;
    var item := MergedItems(key, values);
    MergedItemsFit(model, types, key, values);
    MergedItemsAre(key, values);
    assert NormalizedRows(model.collections, [item]) == [item];
    FieldsQuote(types, InsertColumns(model, [item]));
    var insert := CompileInsert(d, model, [item], Tables.Reject);
    var columns := InsertColumns(model, [item]);
    InsertRoundTrip(d, model.name, Tables.Reject, columns, 1);
    assert DictsOf([item]) == [DictOf(item)];
    var read := ParseInsertion(Lex(d, insert.value.sql, 0));
    if read.None? {
      NoColumnsNoKey(model, pk, t, [item]);
      return Refused;
    }
    ItemsFit(model, types, key, values);
    DatabaseInserts(model, types, pk, rows, [item], read.value);
    var after := Inserted(pk, types, read.value, insert.value.params, rows);
    r := if after.None? then Refused else Upserted(after.value);
  }

  // ----- the two upserts -----

  /** The values change no row with the key after the first. */
  ghost predicate NothingFurtherChanges(t: Tables.Table, key: Row, values: Row) {
    forall i :: Tables.FirstAgreeing(t, key) < i < |t| && Tables.Agrees(t[i].row, key) ==> Tables.Merged(t[i].row, values) == t[i].row
  }

  /** The values assign the primary key null, or one that another row has or is given too. */
  ghost predicate KeyClashes(pk: string, t: Tables.Table, key: Row, values: Row) {
    && pk in values
    && (values[pk].Null? || exists i :: 0 <= i < |t| && i != Tables.FirstAgreeing(t, key) && (Tables.Agrees(t[i].row, key) || t[i].pk == values[pk]))
  }

  lemma ClashIsRefusal(pk: string, t: Tables.Table, key: Assignments, values: Row)
    requires DistinctFields(key) && Tables.FirstAgreeing(t, DictOf(key)) < |t|
    ensures KeyAccepts(pk, t, KeyFilters(key), values) <==> !KeyClashes(pk, t, DictOf(key), values)
  {
    hide Tables.Agrees, Tables.Matched, DictOf, KeyFilters;
    var first := Tables.FirstAgreeing(t, DictOf(key));
    forall i | 0 <= i < |t| ensures Tables.Matched(t[i].row, KeyFilters(key)) <==> Tables.Agrees(t[i].row, DictOf(key)) {
      KeyFiltersFindTheKey(t[i].row, key);
    }
    assert Tables.Matched(t[first].row, KeyFilters(key));
    if pk in values && !values[pk].Null? {
      var v := values[pk];
      assert Touched(t, KeyFilters(key), v, first);
      if exists i :: 0 <= i < |t| && i != first && (Tables.Agrees(t[i].row, DictOf(key)) || t[i].pk == v) {
        var i :| 0 <= i < |t| && i != first && (Tables.Agrees(t[i].row, DictOf(key)) || t[i].pk == v);
        assert Touched(t, KeyFilters(key), v, i);
        assert if i < first then Touched(t, KeyFilters(key), v, i) && Touched(t, KeyFilters(key), v, first)
               else Touched(t, KeyFilters(key), v, first) && Touched(t, KeyFilters(key), v, i);
      } else {
        assert forall i :: 0 <= i < |t| && i != first ==> !Touched(t, KeyFilters(key), v, i);
      }
    }
  }

  /** Updating every row with the key is what the engine does to the first one, exactly if the values
      change no further one. */
  lemma UpdatedLikeTheEngine(m: Tables.Model, t: Tables.Table, key: Assignments, values: Assignments)
    requires DistinctFields(key) && Tables.FirstAgreeing(t, DictOf(key)) < |t| && NeverFails(t, KeyFilters(key))
    ensures
      Tables.RowsOf(Tables.UpdateRows(t, KeyFilters(key), DictOf(values)).0) ==
      Tables.RowsOf(Tables.Mutate(m, t, Tables.Upsert(DictOf(key), DictOf(values))).0) <==>
        NothingFurtherChanges(t, DictOf(key), DictOf(values))
  {
    hide Tables.Mutate, Tables.UpdateRows, ReferenceUpdate, DictOf, KeyFilters, NeverFails;
    EngineUpdates(m, t, values, KeyFilters(key));
    UpdateOfMutate(m, t, KeyFilters(key), DictOf(values));
    UpsertsOfAnExistingRow(m, t, key, values);
  }

  lemma UpdateOfMutate(m: Tables.Model, t: Tables.Table, filters: seq<Pred>, values: Row)
    ensures Tables.Mutate(m, t, Tables.Update(filters, values)).0 == Tables.UpdateRows(t, filters, values).0
  {
  }

  lemma UpsertOfNothing(m: Tables.Model, t: Tables.Table, key: Row)
    requires Tables.FirstAgreeing(t, key) < |t|
    ensures Tables.RowsOf(Tables.Mutate(m, t, Tables.Upsert(key, map[])).0) == Tables.RowsOf(t)
    ensures NothingFurtherChanges(t, key, map[])
  {
    hide Tables.Agrees;
    assert forall r: Row :: Tables.Merged(r, map[]) == r;
    var i := Tables.FirstAgreeing(t, key);
    assert t[i := Tables.Entry(t[i].pk, t[i].row)] == t;
  }

  /** A new row: the engine needs a key as the database does, but replaces the row that has it. */
  lemma UpsertsOfANewRow(model: Model, pk: string, types: Schema, t: Tables.Table, key: Assignments, values: Assignments)
    requires Stored(model, pk, types, t) && FitsColumns(model, types, key) && FitsColumns(model, types, values)
    requires Tables.FirstAgreeing(t, DictOf(key)) == |t|
    ensures
      var row := Tables.Merged(DictOf(key), DictOf(values));
      var all := Tables.RowsOf(t) + [row];
      var taken := FieldOf(row, pk);
      var engine := Tables.Mutate(Tables.Model(pk, model.collections), t, Tables.Upsert(DictOf(key), DictOf(values)));
      && (KeyedBy(pk, all) <==> !taken.Null? && !Tables.Holds(t, taken))
      && (if taken.Null? then engine.1.Failed?
          else if Tables.Holds(t, taken) then engine.0 == t[Tables.Position(t, taken) := Tables.Entry(taken, row)]
          else Tables.RowsOf(engine.0) == all)
  {
    hide KeyedBy, DictOf, Tables.Agrees, FieldOf, Conforms, Tables.Keyed, Tables.Consistent, Tables.Mutate, Tables.Merged,
      Tables.Normalized, Tables.Put, MergedItems, FitsColumns, NormalizedRow, Tables.Holds, UpsertColumns, InsertColumns;
    var m, row := Tables.Model(pk, model.collections), Tables.Merged(DictOf(key), DictOf(values));
    OneMoreKeyed(m, t, row);
    MergedItemsFit(model, types, key, values);
    MergedItemsAre(key, values);
    NormalizedIs(model.collections, MergedItems(key, values));
    DroppedNothing(m, row, model.collections);
    EngineUpsertsNew(m, t, DictOf(key), DictOf(values));
    PutNew(t, FieldOf(row, pk), row);
  }

  lemma DroppedNothing(m: Tables.Model, row: Row, collections: set<string>)
    requires m.collections == collections && row == row - collections
    ensures Tables.Normalized(m, row) == row
  {
  }

  lemma EngineUpsertsNew(m: Tables.Model, t: Tables.Table, key: Row, values: Row)
    requires Tables.FirstAgreeing(t, key) == |t| && Tables.Normalized(m, Tables.Merged(key, values)) == Tables.Merged(key, values)
    ensures
      var row := Tables.Merged(key, values);
      var taken := FieldOf(row, m.key);
      Tables.Mutate(m, t, Tables.Upsert(key, values)) ==
        if taken.Null? then (t, Tables.Failed(Tables.ConstraintError)) else (Tables.Put(t, taken, row), Tables.Done(1, [row]))
  {
    hide Tables.Merged, Tables.Normalized, Tables.Agrees, Tables.Put, FieldOf;
  }

  lemma PutNew(t: Tables.Table, pk: Value, row: Row)
    ensures
      if Tables.Holds(t, pk) then Tables.Put(t, pk, row) == t[Tables.Position(t, pk) := Tables.Entry(pk, row)]
      else Tables.RowsOf(Tables.Put(t, pk, row)) == Tables.RowsOf(t) + [row]
  {
    Extensional(Tables.RowsOf(t + [Tables.Entry(pk, row)]), Tables.RowsOf(t) + [row]);
  }

  /** The compiled EXISTS decides between the compiled UPDATE, skipped when there is nothing to set, and the
      compiled INSERT. Against the reference engine on the same rows: an existing row is refused exactly if
      the values give it a primary key that is null or another row's, and else both sides end up alike
      exactly if the values change no further row with the upsert's key; a new row is refused exactly if its
      primary key is missing or taken, and else both sides end up alike, absent fields being null. */
  method SqlUpsert(d: Dialect, model: Model, pk: string, types: Schema, key: Assignments, values: Assignments, rows: seq<Row>,
                   ghost t: Tables.Table)
    returns (r: Outcome)
    requires Stored(model, pk, types, t) && rows == Tables.RowsOf(t)
    requires DistinctFields(key) && FitsColumns(model, types, key) && FitsColumns(model, types, values)
    ensures
      var engine := Tables.Mutate(Tables.Model(pk, model.collections), t, Tables.Upsert(DictOf(key), DictOf(values)));
      if Tables.FirstAgreeing(t, DictOf(key)) < |t| then
        && (r.Refused? <==> KeyClashes(pk, t, DictOf(key), DictOf(values)))
        && (r.Upserted? ==> (r.rows == Tables.RowsOf(engine.0) <==> NothingFurtherChanges(t, DictOf(key), DictOf(values))))
      else
        var taken := FieldOf(Tables.Merged(DictOf(key), DictOf(values)), pk);
        && (r.Refused? <==> taken.Null? || Tables.Holds(t, taken))
        && (r.Upserted? ==> r.rows == PaddedRows(types, Tables.RowsOf(engine.0)))
  {
    hide Stored, FitsColumns, DictOf, FieldOf, KeyFilters, KeyedBy, KeyAccepts, Tables.Mutate, Tables.UpdateRows, Tables.Agrees,
      Tables.Matched, Tables.Merged, Tables.Holds, NothingFurtherChanges, PaddedRows, DistinctFields;
    var already := Exists(d, model, types, key, rows, t, pk);
    if already {
      if values == [] {
        NoItems();
        UpsertOfNothing(Tables.Model(pk, model.collections), t, DictOf(key));
        return Upserted(rows);
      }
      ClashIsRefusal(pk, t, key, DictOf(values));
      KeyFiltersNeverFail(t, key);
      UpdatedLikeTheEngine(Tables.Model(pk, model.collections), t, key, values);
      r := UpdateByKey(d, model, pk, types, key, values, rows, t);
    } else {
      UpsertsOfANewRow(model, pk, types, t, key, values);
      r := InsertMerged(d, model, pk, types, key, values, rows, t);
    }
  }

  lemma KeyFiltersNeverFail(t: Tables.Table, key: Assignments)
    requires DistinctFields(key)
    ensures NeverFails(t, KeyFilters(key))
  {
    forall i | 0 <= i < |t| ensures MatchesAll(t[i].row, KeyFilters(key)).Ok? {
      KeyFiltersFindTheKey(t[i].row, key);
    }
  }
}
