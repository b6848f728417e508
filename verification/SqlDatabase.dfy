/**
  A SQL table with typed columns and a primary key, which refuses a statement as a whole or runs it.
 */
module SqlDatabase {
  import opened Values
  import opened Predicates
  import opened SqlSearch
  import opened SqlMutations
  import opened SqlInserts
  import opened SqlInsertParsing

  /** Every row has a key, and no two have the same. */
  ghost predicate KeyedBy(key: string, rows: seq<Row>) {
    && (forall i :: 0 <= i < |rows| ==> !FieldOf(rows[i], key).Null?)
    && (forall i, j :: 0 <= i < j < |rows| ==> FieldOf(rows[i], key) != FieldOf(rows[j], key))
  }

  predicate KeyMissing(key: string, rows: seq<Row>) {
    exists i :: 0 <= i < |rows| && FieldOf(rows[i], key).Null?
  }

  predicate KeyTwice(key: string, rows: seq<Row>) {
    exists i, j :: 0 <= i < |rows| && 0 <= j < |rows| && i < j && FieldOf(rows[i], key) == FieldOf(rows[j], key)
  }

  predicate AllConform(types: Schema, rows: seq<Row>) {
    forall i :: 0 <= i < |rows| ==> Conforms(rows[i], types)
  }

  /** The rows a statement would leave, unless a column's type or the primary key refuses them. */
  function Checked(key: string, types: Schema, after: seq<Row>): (r: Option<seq<Row>>)
    ensures r == if AllConform(types, after) && KeyedBy(key, after) then Some(after) else None
  {
    if !AllConform(types, after) || KeyMissing(key, after) || KeyTwice(key, after) then None else Some(after)
  }

  /** Every column the statement names is one of these. */
  predicate MutationKnown(m: Mutation, columns: set<string>) {
    && (m.condition.Some? ==> CondKnown(m.condition.value, columns))
    && (m.Update? ==> forall i :: 0 <= i < |m.targets| ==> m.targets[i].0 in columns)
  }

  /** UPDATE and DELETE. */
  function Mutated(key: string, types: Schema, m: Mutation, params: seq<Value>, rows: seq<Row>): Option<seq<Row>> {
    if MutationKnown(m, types.Keys) then Checked(key, types, Apply(m, params, rows)) else None
  }

  /** The value of a column in an inserted row: null unless the statement lists it. */
  function CellOf(columns: seq<string>, tuple: seq<Term>, params: seq<Value>, column: string): Value {
    if columns == [] || tuple == [] then Null
    else if columns[0] == column then TermValue(map[], params, tuple[0])
    else CellOf(columns[1..], tuple[1..], params, column)
  }

  function InsertedRow(types: Schema, columns: seq<string>, tuple: seq<Term>, params: seq<Value>): Row {
    map c | c in types :: CellOf(columns, tuple, params, c)
  }

  function InsertedRows(types: Schema, ins: Insertion, params: seq<Value>): (r: seq<Row>)
    ensures |r| == |ins.tuples|
    ensures forall i :: 0 <= i < |r| ==> r[i] == InsertedRow(types, ins.columns, ins.tuples[i], params)
  {
    seq(|ins.tuples|, i requires 0 <= i < |ins.tuples| => InsertedRow(types, ins.columns, ins.tuples[i], params))
  }

  /** A plain INSERT, which refuses conflicts. */
  function Inserted(key: string, types: Schema, ins: Insertion, params: seq<Value>, rows: seq<Row>): Option<seq<Row>> {
    if forall c :: c in ins.columns ==> c in types then Checked(key, types, rows + InsertedRows(types, ins, params)) else None
  }

  /** A row as the table holds it: every column, absent fields as null. */
  function Padded(types: Schema, row: Row): Row {
    map c | c in types :: FieldOf(row, c)
  }

  function PaddedRows(types: Schema, rows: seq<Row>): (r: seq<Row>)
    ensures |r| == |rows| && forall i :: 0 <= i < |r| ==> r[i] == Padded(types, rows[i])
  {
    seq(|rows|, i requires 0 <= i < |rows| => Padded(types, rows[i]))
  }

  /** The fields are columns, and the values are of their types. */
  predicate Fits(types: Schema, row: Row) {
    forall c :: c in row ==> c in types && OfType(row[c], types[c])
  }

  lemma PaddedFits(types: Schema, row: Row)
    requires forall c :: c in row ==> c in types
    ensures Conforms(Padded(types, row), types) <==> Fits(types, row)
  {
    if Conforms(Padded(types, row), types) {
      forall c | c in row ensures OfType(row[c], types[c]) {
        assert Padded(types, row)[c] == row[c];
      }
    }
  }

  lemma PaddedField(types: Schema, row: Row, c: string)
    requires c in types
    ensures FieldOf(Padded(types, row), c) == FieldOf(row, c)
  {
  }

  lemma PaddedConforming(types: Schema, row: Row)
    requires Conforms(row, types)
    ensures Padded(types, row) == row
  {
  }

  // ----- an inserted row is the row that was compiled -----

  lemma {:induction false} CellIsValue(columns: seq<string>, tuple: seq<Term>, params: seq<Value>, c: nat)
    requires NoNameTwice(columns) && |tuple| == |columns| && c < |columns|
    ensures CellOf(columns, tuple, params, columns[c]) == TermValue(map[], params, tuple[c])
  {
    if c > 0 {
      assert columns[0] != columns[c];
      CellIsValue(columns[1..], tuple[1..], params, c - 1);
    }
  }

  lemma {:induction false} CellAbsent(columns: seq<string>, tuple: seq<Term>, params: seq<Value>, column: string)
    requires column !in columns
    ensures CellOf(columns, tuple, params, column) == Null
  {
    if columns != [] && tuple != [] {
      CellAbsent(columns[1..], tuple[1..], params, column);
    }
  }

  lemma {:induction false} DictOfKeys(row: Assignments, n: string)
    ensures n in DictOf(row) <==> n in Keys(row)
  {
    if row != [] {
      DictOfKeys(row[1..], n);
      assert Keys(row) == [row[0].0] + Keys(row[1..]);
    }
  }

  /** Executed, the compiled INSERT adds each row as it was given, padded with nulls; if its columns are the
      table's, no field is lost. */
  lemma InsertAddsTheRows(model: Model, types: Schema, rows: seq<Assignments>, ins: Insertion)
    requires ins.columns == InsertColumns(model, rows) && ins.tuples == TupleTerms(0, |rows|, |ins.columns|)
    ensures
      var added := InsertedRows(types, ins, Matrix(rows, ins.columns));
      && |added| == |rows| && (forall r :: 0 <= r < |rows| ==> added[r] == Padded(types, DictOf(rows[r])))
      && ((forall c :: c in ins.columns ==> c in types) ==>
           forall r, n :: 0 <= r < |rows| ==> FieldOf(added[r], n) == FieldOf(DictOf(rows[r]), n))
  {
    hide DictOf, Matrix, InsertColumns;
    var params := Matrix(rows, ins.columns);
    ColumnsHoldEveryKeyOnce(model, rows);
    forall r | 0 <= r < |rows| ensures InsertedRows(types, ins, params)[r] == Padded(types, DictOf(rows[r])) {
      forall c | c in types ensures CellOf(ins.columns, ins.tuples[r], params, c) == FieldOf(DictOf(rows[r]), c) {
        CellInRow(model, rows, ins, r, c);
      }
    }
    if forall c :: c in ins.columns ==> c in types {
      forall r, n | 0 <= r < |rows| ensures FieldOf(Padded(types, DictOf(rows[r])), n) == FieldOf(DictOf(rows[r]), n) {
        DictOfKeys(rows[r], n);
      }
    }
  }

  lemma CellInRow(model: Model, rows: seq<Assignments>, ins: Insertion, r: nat, c: string)
    requires ins.columns == InsertColumns(model, rows) && ins.tuples == TupleTerms(0, |rows|, |ins.columns|) && r < |rows|
    ensures CellOf(ins.columns, ins.tuples[r], Matrix(rows, ins.columns), c) == FieldOf(DictOf(rows[r]), c)
  {
    hide DictOf, Matrix, InsertColumns, TupleTerms;
    var params := Matrix(rows, ins.columns);
    ColumnsHoldEveryKeyOnce(model, rows);
    if c in ins.columns {
      var k :| 0 <= k < |ins.columns| && ins.columns[k] == c;
      CellIsValue(ins.columns, ins.tuples[r], params, k);
      InsertBindsEveryCell(model, rows, r, k);
    } else {
      CellAbsent(ins.columns, ins.tuples[r], params, c);
      DictOfKeys(rows[r], c);
    }
  }
}
