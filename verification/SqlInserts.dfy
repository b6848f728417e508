/**
  INSERT and UPSERT statements: which columns they list, the row-major matrix of placeholders under
  them, and the conflict clause each dialect writes. An upsert binds the values it would update with a
  second time.
 */
module SqlInserts {
  import opened Values
  import opened Predicates
  import opened SqlText
  import opened SqlCompiler
  import opened SqlStatements
  import opened SqlMutations
  import Tables

  /** What an insert needs to know of a model. */
  datatype Model = Model(name: string, fields: seq<string>, links: seq<string>, collections: set<string>)

  // ----- the columns of an insert -----

  /** The names without later repetitions. */
  function Firsts(names: seq<string>): seq<string> {
    if names == [] then []
    else
      var last := names[|names| - 1];
      var before := Firsts(names[..|names| - 1]);
      if last in before then before else before + [last]
  }

  function Keys(row: Assignments): (r: seq<string>)
    ensures |r| == |row| && forall i :: 0 <= i < |r| ==> r[i] == row[i].0
  {
    seq(|row|, i requires 0 <= i < |row| => row[i].0)
  }

  function KeysOf(rows: seq<Assignments>): seq<string> {
    if rows == [] then [] else KeysOf(rows[..|rows| - 1]) + Keys(rows[|rows| - 1])
  }

  /** Those of the names that some row has. */
  function OnlyPresent(names: seq<string>, present: set<string>): seq<string> {
    if names == [] then []
    else
      var n := |names| - 1;
      OnlyPresent(names[..n], present) + if names[n] in present then [names[n]] else []
  }

  function Present(rows: seq<Assignments>): set<string> {
    set k | k in KeysOf(rows)
  }

  /** Declared columns in the order of declaration, then others in the order in which they turn up. */
  function InsertColumns(model: Model, rows: seq<Assignments>): seq<string> {
    Firsts(OnlyPresent(model.fields + model.links, Present(rows)) + KeysOf(rows))
  }

  lemma FirstsMore(names: seq<string>, n: string)
    ensures Firsts(names + [n]) == if n in Firsts(names) then Firsts(names) else Firsts(names) + [n]
  {
    assert (names + [n])[..|names|] == names;
  }

  lemma {:induction false} FirstsHold(names: seq<string>)
    ensures forall n :: n in Firsts(names) <==> n in names
    ensures forall i, j :: 0 <= i < j < |Firsts(names)| ==> Firsts(names)[i] != Firsts(names)[j]
  {
    if names != [] {
      var k := |names| - 1;
      FirstsHold(names[..k]);
      assert names == names[..k] + [names[k]];
    }
  }

  lemma {:induction false} FirstsPrefix(names: seq<string>, more: seq<string>)
    ensures Firsts(names) <= Firsts(names + more)
    ensures forall i :: |Firsts(names)| <= i < |Firsts(names + more)| ==> Firsts(names + more)[i] !in names
    decreases |more|
  {
    hide Firsts;
    if more == [] {
      assert names + more == names;
    } else {
      var k := |more| - 1;
      FirstsPrefix(names, more[..k]);
      FirstsMore(names + more[..k], more[k]);
      FirstsHold(names + more[..k]);
      assert names + more == names + more[..k] + [more[k]];
    }
  }

  lemma {:induction false} FirstsOfDistinct(names: seq<string>)
    requires forall i, j :: 0 <= i < j < |names| ==> names[i] != names[j]
    ensures Firsts(names) == names
  {
    if names != [] {
      var k := |names| - 1;
      FirstsOfDistinct(names[..k]);
      assert names[..k] + [names[k]] == names;
    }
  }

  lemma {:induction false} OnlyHold(names: seq<string>, present: set<string>)
    ensures forall n :: n in OnlyPresent(names, present) <==> n in names && n in present
  {
    if names != [] {
      var k := |names| - 1;
      OnlyHold(names[..k], present);
      assert names == names[..k] + [names[k]];
    }
  }

  lemma {:induction false} KeysHold(rows: seq<Assignments>)
    ensures forall n :: n in KeysOf(rows) <==> exists i :: 0 <= i < |rows| && n in Keys(rows[i])
  {
    if rows != [] {
      var k := |rows| - 1;
      KeysHold(rows[..k]);
      assert forall i :: 0 <= i < k ==> rows[..k][i] == rows[i];
    }
  }

  ghost predicate NoNameTwice(names: seq<string>) {
    forall i, j :: 0 <= i < j < |names| ==> names[i] != names[j]
  }

  lemma {:induction false} OnlyPresentOnce(names: seq<string>, present: set<string>)
    requires NoNameTwice(names)
    ensures NoNameTwice(OnlyPresent(names, present))
  {
    if names != [] {
      var k := |names| - 1;
      OnlyPresentOnce(names[..k], present);
      OnlyHold(names[..k], present);
    }
  }

  /** Every key of every row is listed, once, and nothing else; the declared ones come first, in the
      order of declaration. */
  lemma ColumnsHoldEveryKeyOnce(model: Model, rows: seq<Assignments>)
    ensures
      var columns, declared := InsertColumns(model, rows), Firsts(OnlyPresent(model.fields + model.links, Present(rows)));
      && (NoNameTwice(model.fields + model.links) ==> declared == OnlyPresent(model.fields + model.links, Present(rows)))
      && (forall n :: n in columns <==> exists i :: 0 <= i < |rows| && n in Keys(rows[i]))
      && (forall i, j :: 0 <= i < j < |columns| ==> columns[i] != columns[j])
      && declared <= columns
      && forall i :: |declared| <= i < |columns| ==> columns[i] !in model.fields + model.links
  {
    var kept := OnlyPresent(model.fields + model.links, Present(rows));
    FirstsHold(kept + KeysOf(rows));
    FirstsPrefix(kept, KeysOf(rows));
    OnlyHold(model.fields + model.links, Present(rows));
    KeysHold(rows);
    if NoNameTwice(model.fields + model.links) {
      OnlyPresentOnce(model.fields + model.links, Present(rows));
      FirstsOfDistinct(kept);
    }
    hide Keys, KeysOf, OnlyPresent, Firsts;
    var columns := InsertColumns(model, rows);
    forall i | |Firsts(kept)| <= i < |columns| ensures columns[i] !in model.fields + model.links {
      assert columns[i] in columns;
    }
  }

  lemma OnlyMore(names: seq<string>, present: set<string>, i: nat)
    requires i < |names|
    ensures OnlyPresent(names[..i + 1], present) == OnlyPresent(names[..i], present) + if names[i] in present then [names[i]] else []
  {
    assert names[..i + 1][..i] == names[..i];
  }

  lemma KeysOfMore(rows: seq<Assignments>, r: nat)
    requires r < |rows|
    ensures KeysOf(rows[..r + 1]) == KeysOf(rows[..r]) + Keys(rows[r])
  {
    assert rows[..r + 1][..r] == rows[..r];
  }

  /** Adds the keys of one row that are not listed yet. */
  method AddKeys(ordered: seq<string>, seen: set<string>, row: Assignments, ghost names: seq<string>)
    returns (ordered': seq<string>, seen': set<string>)
    requires ordered == Firsts(names) && forall n :: n in seen <==> n in ordered
    ensures ordered' == Firsts(names + Keys(row)) && forall n :: n in seen' <==> n in ordered'
  {
    hide Firsts;
    ordered', seen' := ordered, seen;
    assert names + Keys(row)[..0] == names;
    for k := 0 to |row|
      invariant ordered' == Firsts(names + Keys(row)[..k])
      invariant forall n :: n in seen' <==> n in ordered'
    {
      assert names + Keys(row)[..k + 1] == names + Keys(row)[..k] + [row[k].0];
      FirstsMore(names + Keys(row)[..k], row[k].0);
      if row[k].0 !in seen' {
        ordered' := ordered' + [row[k].0];
        seen' := seen' + {row[k].0};
      }
    }
    assert Keys(row)[..|row|] == Keys(row);
  }

  method ColumnsOf(model: Model, rows: seq<Assignments>) returns (ordered: seq<string>)
    ensures ordered == InsertColumns(model, rows)
  {
    var candidate := model.fields + model.links;
    var present := Present(rows);
    ordered := [];
    var seen: set<string> := {};
    hide Firsts, OnlyPresent, KeysOf;
    FirstsOfDistinct([]);
    NothingKept(present, candidate, rows);
    for i := 0 to |candidate|
      invariant ordered == Firsts(OnlyPresent(candidate[..i], present))
      invariant forall n :: n in seen <==> n in ordered
    {
      OnlyMore(candidate, present, i);
      FirstsMore(OnlyPresent(candidate[..i], present), candidate[i]);
      assert OnlyPresent(candidate[..i], present) + [] == OnlyPresent(candidate[..i], present);
      if candidate[i] in present && candidate[i] !in seen {
        ordered := ordered + [candidate[i]];
        seen := seen + {candidate[i]};
      }
    }
    assert candidate[..|candidate|] == candidate;
    ghost var kept := OnlyPresent(candidate, present);
    for r := 0 to |rows|
      invariant ordered == Firsts(kept + KeysOf(rows[..r]))
      invariant forall n :: n in seen <==> n in ordered
    {
      KeysOfMore(rows, r);
      AppendTwice(kept, KeysOf(rows[..r]), Keys(rows[r]));
      ordered, seen := AddKeys(ordered, seen, rows[r], kept + KeysOf(rows[..r]));
    }
    assert rows[..|rows|] == rows;
  }

  lemma NothingKept(present: set<string>, candidate: seq<string>, rows: seq<Assignments>)
    ensures OnlyPresent(candidate[..0], present) == [] && KeysOf(rows[..0]) == []
    ensures forall names: seq<string> :: names + KeysOf(rows[..0]) == names
  {
  }

  // ----- the values under them -----

  /** `row.get(column)` for each column. */
  function Cells(row: Row, columns: seq<string>): (r: seq<Value>)
    ensures |r| == |columns| && forall i :: 0 <= i < |r| ==> r[i] == FieldOf(row, columns[i])
  {
    seq(|columns|, i requires 0 <= i < |columns| => FieldOf(row, columns[i]))
  }

  /** Row by row, one value for each column. */
  function Matrix(rows: seq<Assignments>, columns: seq<string>): (r: seq<Value>)
  {
    if rows == [] then [] else Matrix(rows[..|rows| - 1], columns) + Cells(DictOf(rows[|rows| - 1]), columns)
  }

  lemma {:induction false} MatrixSize(rows: seq<Assignments>, columns: seq<string>)
    ensures |Matrix(rows, columns)| == |rows| * |columns|
  {
    if rows != [] {
      var k := |rows| - 1;
      MatrixSize(rows[..k], columns);
      NextMultiple(k, |columns|);
    }
  }

  lemma NextMultiple(k: nat, d: nat)
    ensures (k + 1) * d == k * d + d
  {
  }

  /** The value bound for a cell is the row's value, or null where the row lacks the column. */
  lemma {:induction false} MatrixAt(rows: seq<Assignments>, columns: seq<string>, r: nat, c: nat)
    requires r < |rows| && c < |columns|
    ensures r * |columns| + c < |Matrix(rows, columns)|
    ensures Matrix(rows, columns)[r * |columns| + c] == FieldOf(DictOf(rows[r]), columns[c])
  {
    hide FieldOf, DictOf;
    var k := |rows| - 1;
    MatrixSize(rows[..k], columns);
    if r < k {
      MatrixAt(rows[..k], columns, r, c);
    }
  }

  // ----- the text -----

  /** Keywords with spaces between them. */
  function Words(ws: seq<string>): Phrase
    requires ws != []
  {
    var n := |ws| - 1;
    if n == 0 then T(Keyword(ws[0])) else Then(Words(ws[..n]), Keyword(ws[n]))
  }

  function Sentence(ws: seq<string>): string
    requires ws != []
  {
    var n := |ws| - 1;
    if n == 0 then ws[0] else Sentence(ws[..n]) + " " + ws[n]
  }

  function Parens(ps: seq<Phrase>): Phrase {
    if ps == [] then Append(T(Punct('(')), T(Punct(')'))) else Close(Append(T(Punct('(')), ListPhrase(ps)))
  }

  /** The placeholders of one row of `k` values. */
  function TuplePhrase(n: nat, k: nat): Phrase {
    if k == 0 then Append(T(Punct('(')), T(Punct(')'))) else Close(Append(T(Punct('(')), BindsPhrase(n, k)))
  }

  function TuplePhrases(count: nat, k: nat): (r: seq<Phrase>)
    ensures |r| == count && forall i :: 0 <= i < count ==> r[i] == TuplePhrase(i * k, k)
  {
    seq(count, i requires 0 <= i => TuplePhrase(i * k, k))
  }

  /** INSERT with what the conflict mode adds to it, or REPLACE. */
  function Verb(d: Dialect, c: Tables.Conflict): (ws: seq<string>)
    ensures ws != []
  {
    if c.Ignore? && d.Mysql? then ["INSERT", "IGNORE"]
    else if c.Replace? && d.Sqlite? then ["INSERT", "OR", "REPLACE"]
    else if c.Replace? && d.Mysql? then ["REPLACE"]
    else ["INSERT"]
  }

  function InsertHead(verb: seq<string>, table: string, columns: seq<string>): Phrase
    requires verb != []
  {
    Then(Append(Sp(Then(Then(Words(verb), Keyword("INTO")), Ident(table))), Parens(IdentPhrases(columns))), Keyword("VALUES"))
  }

  function InsertBody(verb: seq<string>, table: string, columns: seq<string>, count: nat): Phrase
    requires verb != [] && count > 0
  {
    Append(Sp(InsertHead(verb, table, columns)), ListPhrase(TuplePhrases(count, |columns|)))
  }

  function IgnorePhrase(d: Dialect, c: Tables.Conflict): Option<Phrase> {
    if c.Ignore? && !d.Mysql? then Some(Words(["ON", "CONFLICT", "DO", "NOTHING"])) else None
  }

  function ReturningPhrase(d: Dialect): Option<Phrase> {
    if d.Mysql? then None else Some(Then(T(Keyword("RETURNING")), Punct('*')))
  }

  /** The text depends on the columns and on the number of rows, and on no value. */
  function InsertPhrase(d: Dialect, table: string, c: Tables.Conflict, columns: seq<string>, count: nat): Phrase
    requires count > 0
  {
    With(With(InsertBody(Verb(d, c), table, columns, count), IgnorePhrase(d, c)), ReturningPhrase(d))
  }

  lemma {:induction false} WordsText(d: Dialect, ws: seq<string>)
    requires ws != []
    ensures TextOf(d, Words(ws)) == Sentence(ws)
  {
    if |ws| > 1 {
      WordsText(d, ws[..|ws| - 1]);
    }
  }

  /** `", ".join(parts)` */
  function Joined(parts: seq<string>): string {
    if parts == [] then "" else CommaJoin(parts)
  }

  lemma ParensText(d: Dialect, ps: seq<Phrase>, parts: seq<string>)
    requires |ps| == |parts| && forall i :: 0 <= i < |ps| ==> parts[i] == TextOf(d, ps[i])
    ensures "(" + Joined(parts) + ")" == TextOf(d, Parens(ps))
  {
    if ps != [] {
      CommaText(d, ps, parts);
    }
  }

  // ----- compilation of INSERT -----

  /** The first name that cannot be quoted. */
  function QuoteFault(names: seq<string>): Option<CompileError> {
    if names == [] then None else FirstFault(NameFault(names[0], false), QuoteFault(names[1..]))
  }

  lemma QuoteFaultStep(names: seq<string>, i: nat)
    requires i < |names|
    ensures QuoteFault(names[i..]) == FirstFault(NameFault(names[i], false), QuoteFault(names[i + 1..]))
  {
    assert names[i..][1..] == names[i + 1..];
  }

  ghost predicate Quoted(d: Dialect, names: seq<string>, parts: seq<string>) {
    |parts| == |names| && forall i :: 0 <= i < |parts| ==> parts[i] == TextOf(d, IdentPhrases(names)[i])
  }

  method QuoteEach(d: Dialect, names: seq<string>) returns (r: Result<seq<string>, CompileError>)
    ensures if QuoteFault(names).Some? then r == Err(QuoteFault(names).value) else r.Ok? && Quoted(d, names, r.value)
  {
    var quoted: seq<string> := [];
    for i := 0 to |names|
      invariant QuoteFault(names) == QuoteFault(names[i..])
      invariant |quoted| == i && forall k :: 0 <= k < i ==> quoted[k] == Delimit(names[k], d.QuoteChar())
    {
      QuoteFaultStep(names, i);
      var name := Quote(d, names[i]);
      if name.Err? {
        return Err(name.error);
      }
      quoted := quoted + [name.value];
    }
    r := Ok(quoted);
  }

  function NormalizedRows(collections: set<string>, rows: seq<Assignments>): (r: seq<Assignments>)
    ensures |r| == |rows| && forall i :: 0 <= i < |r| ==> r[i] == NormalizedRow(collections, rows[i])
  {
    seq(|rows|, i requires 0 <= i < |rows| => NormalizedRow(collections, rows[i]))
  }

  method NormalizeRows(collections: set<string>, rows: seq<Assignments>) returns (out: seq<Assignments>)
    ensures out == NormalizedRows(collections, rows)
  {
    out := [];
    for i := 0 to |rows|
      invariant |out| == i && forall k :: 0 <= k < i ==> out[k] == NormalizedRow(collections, rows[k])
    {
      var row := NormalizeRow(collections, rows[i]);
      out := out + [row];
    }
  }

  /** Replacing rows without a target is refused for PostgreSQL. */
  function ModeFault(d: Dialect, c: Tables.Conflict): Option<CompileError> {
    if c.Replace? && d.Postgres? then Some(DialectError) else None
  }

  function InsertFault(d: Dialect, model: Model, rows: seq<Assignments>, c: Tables.Conflict): Option<CompileError> {
    if rows == [] then Some(QueryError)
    else FirstFault(QuoteFault(InsertColumns(model, rows)), FirstFault(ModeFault(d, c), NameFault(model.name, false)))
  }

  method OneTuple(d: Dialect, row: Row, columns: seq<string>, params: ParameterCollector) returns (text: string)
    requires params.style == d.Style()
    modifies params
    ensures text == TextOf(d, TuplePhrase(|old(params.values)|, |columns|))
    ensures params.values == old(params.values) + Cells(row, columns)
  {
    if columns == [] {
      return "(" + ")";
    }
    var placeholders := Placeholders(d, Cells(row, columns), params);
    text := "(" + placeholders + ")";
  }

  lemma MatrixMore(rows: seq<Assignments>, columns: seq<string>, r: nat)
    requires r < |rows|
    ensures Matrix(rows[..r + 1], columns) == Matrix(rows[..r], columns) + Cells(DictOf(rows[r]), columns)
    ensures |Matrix(rows[..r], columns)| == r * |columns|
  {
    MatrixSize(rows[..r], columns);
    assert rows[..r + 1][..r] == rows[..r];
  }

  method Tuples(d: Dialect, rows: seq<Assignments>, columns: seq<string>, params: ParameterCollector)
    returns (tuples: seq<string>)
    requires params.style == d.Style() && params.values == []
    modifies params
    ensures |tuples| == |rows| && forall i :: 0 <= i < |rows| ==> tuples[i] == TextOf(d, TuplePhrases(|rows|, |columns|)[i])
    ensures params.values == Matrix(rows, columns)
  {
    hide TuplePhrase, Matrix, TextOf, Cells;
    tuples := [];
    NoRows(columns, rows);
    for r := 0 to |rows|
      invariant |tuples| == r && forall i :: 0 <= i < r ==> tuples[i] == TextOf(d, TuplePhrase(i * |columns|, |columns|))
      invariant params.values == Matrix(rows[..r], columns)
    {
      MatrixMore(rows, columns, r);
      var tuple := OneTuple(d, DictOf(rows[r]), columns, params);
      tuples := tuples + [tuple];
    }
    assert rows[..|rows|] == rows;
  }

  lemma NoRows(columns: seq<string>, rows: seq<Assignments>)
    ensures Matrix(rows[..0], columns) == []
  {
  }

  function BodySql(verb: string, table: string, columns: seq<string>, tuples: seq<string>): string
    requires tuples != []
  {
    verb + " " + "INTO" + " " + table + " " + ("(" + Joined(columns) + ")") + " " + "VALUES" + " " + CommaJoin(tuples)
  }

  lemma BodyText(d: Dialect, verb: seq<string>, table: string, columns: seq<string>, quoted: seq<string>, tuples: seq<string>)
    requires verb != [] && tuples != [] && Quoted(d, columns, quoted)
    requires forall i :: 0 <= i < |tuples| ==> tuples[i] == TextOf(d, TuplePhrases(|tuples|, |columns|)[i])
    ensures BodySql(Sentence(verb), Delimit(table, d.QuoteChar()), quoted, tuples) ==
      TextOf(d, InsertBody(verb, table, columns, |tuples|))
  {
    hide Parens, Words, Sentence, CommaJoin, ListPhrase, Joined, TuplePhrase;
    WordsText(d, verb);
    ParensText(d, IdentPhrases(columns), quoted);
    CommaText(d, TuplePhrases(|tuples|, |columns|), tuples);
  }

  lemma ReturningText(d: Dialect)
    ensures ClauseText(d, ReturningPhrase(d), if d.Mysql? then "" else "RETURNING" + " " + "*")
  {
  }

  lemma IgnoreText(d: Dialect, c: Tables.Conflict)
    ensures ClauseText(d, IgnorePhrase(d, c), if c.Ignore? && !d.Mysql? then Sentence(["ON", "CONFLICT", "DO", "NOTHING"]) else "")
  {
    WordsText(d, ["ON", "CONFLICT", "DO", "NOTHING"]);
  }

  method CompileInsert(d: Dialect, model: Model, raw: seq<Assignments>, c: Tables.Conflict)
    returns (r: Result<Statement, CompileError>)
    ensures
      var rows := NormalizedRows(model.collections, raw);
      var columns := InsertColumns(model, rows);
      var fault := InsertFault(d, model, rows, c);
      if fault.Some? then r == Err(fault.value)
      else r == Ok(Statement(TextOf(d, InsertPhrase(d, model.name, c, columns, |rows|)), Matrix(rows, columns)))
  {
    hide InsertColumns, Matrix, TextOf, InsertBody, QuoteFault, TuplePhrase, BodySql, JoinClause, With, ClauseText, NormalizedRow,
      Sentence, Quoted, Delimit;
    var rows := NormalizeRows(model.collections, raw);
    if rows == [] {
      return Err(QueryError);
    }
    var columns := ColumnsOf(model, rows);
    var params := new ParameterCollector(d.Style());
    var quoted := QuoteEach(d, columns);
    if quoted.Err? {
      return Err(quoted.error);
    }
    var tuples := Tuples(d, rows, columns, params);
    if c.Replace? && d.Postgres? {
      return Err(DialectError);
    }
    var name := Quote(d, model.name);
    if name.Err? {
      return Err(name.error);
    }
    var sql := BodySql(Sentence(Verb(d, c)), name.value, quoted.value, tuples);
    var conflict := if c.Ignore? && !d.Mysql? then Sentence(["ON", "CONFLICT", "DO", "NOTHING"]) else "";
    var returning := if d.Mysql? then "" else "RETURNING" + " " + "*";
    var body := InsertBody(Verb(d, c), model.name, columns, |rows|);
    BodyText(d, Verb(d, c), model.name, columns, quoted.value, tuples);
    IgnoreText(d, c);
    ReturningText(d);
    WithText(d, body, IgnorePhrase(d, c), conflict);
    WithText(d, With(body, IgnorePhrase(d, c)), ReturningPhrase(d), returning);
    r := Ok(Statement(JoinClause(JoinClause(sql, conflict), returning), params.values));
  }

  // ----- UPSERT -----

  /** The fields of `{**key, **values}` in order. */
  function UpsertColumns(key: Assignments, values: Assignments): seq<string> {
    Firsts(Keys(key) + Keys(values))
  }

  function KeepPhrase(column: string): Phrase {
    Then(Then(T(Ident(column)), Op("=")), Ident(column))
  }

  function KeepPhrases(columns: seq<string>): (r: seq<Phrase>)
    ensures |r| == |columns| && forall i :: 0 <= i < |r| ==> r[i] == KeepPhrase(columns[i])
  {
    seq(|columns|, i requires 0 <= i < |columns| => KeepPhrase(columns[i]))
  }

  /** The columns an upsert without values sets to themselves: MySQL only the first of the key. */
  function KeptColumns(d: Dialect, key: Assignments): seq<string> {
    if d.Mysql? && key != [] then [key[0].0] else Keys(key)
  }

  /** What an existing row is set to. The values are bound again, after those of the inserted row. */
  function SetPhrases(d: Dialect, key: Assignments, values: Assignments): seq<Phrase> {
    if values != [] then AssignPhrases(values, |UpsertColumns(key, values)|) else KeepPhrases(KeptColumns(d, key))
  }

  const ON_DUPLICATE: seq<string> := ["ON", "DUPLICATE", "KEY", "UPDATE"]
  const ON_CONFLICT: seq<string> := ["ON", "CONFLICT"]
  const DO_UPDATE: seq<string> := ["DO", "UPDATE", "SET"]

  function ActionPhrase(d: Dialect, key: Assignments): Phrase {
    if d.Mysql? then Words(ON_DUPLICATE)
    else Append(Sp(Append(Sp(Words(ON_CONFLICT)), Parens(IdentPhrases(Keys(key))))), Words(DO_UPDATE))
  }

  function AfterSpace(before: Phrase, list: seq<Phrase>): Phrase {
    if list == [] then Sp(before) else Append(Sp(before), ListPhrase(list))
  }

  function UpsertPhrase(d: Dialect, table: string, key: Assignments, values: Assignments): Phrase {
    var body := InsertBody(["INSERT"], table, UpsertColumns(key, values), 1);
    With(AfterSpace(Append(Sp(body), ActionPhrase(d, key)), SetPhrases(d, key, values)), ReturningPhrase(d))
  }

  /** On MySQL an upsert without any field has nothing to set. */
  function UpsertFault(d: Dialect, table: string, key: Assignments, values: Assignments): Option<CompileError> {
    FirstFault(QuoteFault(UpsertColumns(key, values)), FirstFault(NameFault(table, false),
      if d.Mysql? && key == [] && values == [] then Some(QueryError) else None))
  }

  lemma {:induction false} QuoteFaultFree(names: seq<string>)
    ensures QuoteFault(names).None? <==> forall n :: n in names ==> NameFault(n, false).None?
  {
    if names != [] {
      QuoteFaultFree(names[1..]);
      assert names == [names[0]] + names[1..];
    }
  }

  lemma {:induction false} AssignmentFaultFree(assignments: Assignments)
    ensures AssignmentFault(assignments) == QuoteFault(Keys(assignments))
  {
    if assignments != [] {
      AssignmentFaultFree(assignments[1..]);
      assert Keys(assignments)[1..] == Keys(assignments[1..]);
    }
  }

  /** Once the inserted columns are quoted, so are those of the key and of the values. */
  lemma PartsQuote(key: Assignments, values: Assignments)
    requires QuoteFault(UpsertColumns(key, values)).None?
    ensures QuoteFault(Keys(key)).None? && AssignmentFault(values).None?
  {
    hide QuoteFault, Keys, AssignmentFault, NameFault;
    FirstsHold(Keys(key) + Keys(values));
    QuoteFaultFree(UpsertColumns(key, values));
    QuoteFaultFree(Keys(key));
    QuoteFaultFree(Keys(values));
    AssignmentFaultFree(values);
  }

  method KeepEach(d: Dialect, columns: seq<string>) returns (parts: seq<string>)
    requires QuoteFault(columns).None?
    ensures |parts| == |columns| && forall i :: 0 <= i < |parts| ==> parts[i] == TextOf(d, KeepPhrases(columns)[i])
  {
    hide TextOf, QuoteFault, Delimit;
    QuoteFaultFree(columns);
    parts := [];
    for i := 0 to |columns|
      invariant |parts| == i && forall k :: 0 <= k < i ==> parts[k] == TextOf(d, KeepPhrase(columns[k]))
    {
      assert NameFault(columns[i], false).None?;
      var name := Quote(d, columns[i]);
      parts := parts + [name.value + " " + "=" + " " + name.value];
    }
  }

  function ActionSql(d: Dialect, key: seq<string>): string {
    if d.Mysql? then Sentence(ON_DUPLICATE)
    else Sentence(ON_CONFLICT) + " " + ("(" + Joined(key) + ")") + " " + Sentence(DO_UPDATE)
  }

  lemma ActionText(d: Dialect, key: Assignments, quoted: seq<string>)
    requires Quoted(d, Keys(key), quoted)
    ensures ActionSql(d, quoted) == TextOf(d, ActionPhrase(d, key))
  {
    hide Words, Sentence, Parens, Joined, IdentPhrases, Spell, Keys;
    WordsText(d, ON_DUPLICATE);
    WordsText(d, ON_CONFLICT);
    WordsText(d, DO_UPDATE);
    ParensText(d, IdentPhrases(Keys(key)), quoted);
  }

  lemma AfterSpaceText(d: Dialect, before: Phrase, list: seq<Phrase>, parts: seq<string>)
    requires |parts| == |list| && forall i :: 0 <= i < |parts| ==> parts[i] == TextOf(d, list[i])
    ensures TextOf(d, before) + " " + Joined(parts) == TextOf(d, AfterSpace(before, list))
  {
    if list != [] {
      CommaText(d, list, parts);
    }
  }

  lemma OneRow(cells: seq<Phrase>, k: nat)
    requires cells == TuplePhrases(1, k)
    ensures cells == [TuplePhrase(0, k)]
  {
    assert cells[0] == TuplePhrase(0 * k, k);
  }

  /** The parts of the SET list, binding the values after what is bound already. */
  method SetEach(d: Dialect, key: Assignments, values: Assignments, params: ParameterCollector) returns (parts: seq<string>)
    requires params.style == d.Style() && |params.values| == |UpsertColumns(key, values)|
    requires QuoteFault(Keys(key)).None? && AssignmentFault(values).None?
    modifies params
    ensures |parts| == |SetPhrases(d, key, values)|
    ensures forall i :: 0 <= i < |parts| ==> parts[i] == TextOf(d, SetPhrases(d, key, values)[i])
    ensures params.values == old(params.values) + AssignedValues(values)
  {
    hide UpsertColumns, TextOf, AssignPhrase, KeepPhrase, Delimit;
    var updates := Assign(d, values, params);
    parts := updates.value;
    if values == [] {
      QuoteFaultFree(Keys(key));
      QuoteFaultFree(KeptColumns(d, key));
      if d.Mysql? && key != [] {
        assert Keys(key)[0] in Keys(key);
      }
      parts := KeepEach(d, KeptColumns(d, key));
    }
  }

  method CompileUpsert(d: Dialect, model: Model, rawKey: Assignments, rawValues: Assignments)
    returns (r: Result<Statement, CompileError>)
    ensures
      var key, values := NormalizedRow(model.collections, rawKey), NormalizedRow(model.collections, rawValues);
      var columns := UpsertColumns(key, values);
      var fault := UpsertFault(d, model.name, key, values);
      if fault.Some? then r == Err(fault.value)
      else r == Ok(Statement(TextOf(d, UpsertPhrase(d, model.name, key, values)),
                             Cells(Tables.Merged(DictOf(key), DictOf(values)), columns) + AssignedValues(values)))
  {
    hide UpsertColumns, TextOf, UpsertPhrase, QuoteFault, BodySql, ActionSql, SetPhrases, JoinClause, Quoted, Keys, Joined,
      AssignmentFault, Delimit, DictOf, TuplePhrase, NormalizedRow;
    var key := NormalizeRow(model.collections, rawKey);
    var values := NormalizeRow(model.collections, rawValues);
    var columns := MergedColumns(key, values);
    var merged := Tables.Merged(DictOf(key), DictOf(values));
    var params := new ParameterCollector(d.Style());
    var quoted := QuoteEach(d, columns);
    if quoted.Err? {
      return Err(quoted.error);
    }
    var tuple := OneTuple(d, merged, columns, params);
    assert params.values == Cells(merged, columns);
    PartsQuote(key, values);
    var conflict := QuoteEach(d, Keys(key));
    var updates := SetEach(d, key, values, params);
    var name := Quote(d, model.name);
    if name.Err? {
      return Err(name.error);
    }
    if d.Mysql? && key == [] && values == [] {
      return Err(QueryError);
    }
    UpsertText(d, model.name, key, values, quoted.value, tuple, conflict.value, updates);
    var sql := BodySql("INSERT", name.value, quoted.value, [tuple]);
    var returning := if d.Mysql? then "" else "RETURNING" + " " + "*";
    r := Ok(Statement(JoinClause(sql + " " + ActionSql(d, conflict.value) + " " + Joined(updates), returning), params.values));
  }

  lemma UpsertText(d: Dialect, table: string, key: Assignments, values: Assignments, quoted: seq<string>, tuple: string,
                   conflict: seq<string>, updates: seq<string>)
    requires Quoted(d, UpsertColumns(key, values), quoted) && Quoted(d, Keys(key), conflict)
    requires tuple == TextOf(d, TuplePhrase(0, |UpsertColumns(key, values)|))
    requires |updates| == |SetPhrases(d, key, values)|
    requires forall i :: 0 <= i < |updates| ==> updates[i] == TextOf(d, SetPhrases(d, key, values)[i])
    ensures
      var sql := BodySql("INSERT", Delimit(table, d.QuoteChar()), quoted, [tuple]);
      var returning := if d.Mysql? then "" else "RETURNING" + " " + "*";
      JoinClause(sql + " " + ActionSql(d, conflict) + " " + Joined(updates), returning) == TextOf(d, UpsertPhrase(d, table, key, values))
  {
    hide UpsertColumns, InsertBody, BodySql, ActionSql, ActionPhrase, SetPhrases, AfterSpace, With, JoinClause, ClauseText,
      Quoted, Keys, Joined, Delimit, Sentence, TuplePhrase;
    var columns := UpsertColumns(key, values);
    var body := InsertBody(["INSERT"], table, columns, 1);
    OneRow(TuplePhrases(1, |columns|), |columns|);
    InsertAlone();
    BodyText(d, ["INSERT"], table, columns, quoted, [tuple]);
    ActionText(d, key, conflict);
    var acted := Append(Sp(body), ActionPhrase(d, key));
    AfterSpaceText(d, acted, SetPhrases(d, key, values), updates);
    ReturningText(d);
    WithText(d, AfterSpace(acted, SetPhrases(d, key, values)), ReturningPhrase(d), if d.Mysql? then "" else "RETURNING" + " " + "*");
  }

  lemma InsertAlone()
    ensures Sentence(["INSERT"]) == "INSERT"
  {
  }

  /** `list({**key, **values})` */
  method MergedColumns(key: Assignments, values: Assignments) returns (columns: seq<string>)
    ensures columns == UpsertColumns(key, values)
  {
    hide Firsts;
    var seen: set<string>;
    FirstsOfDistinct([]);
    columns, seen := AddKeys([], {}, key, []);
    assert [] + Keys(key) == Keys(key);
    columns, seen := AddKeys(columns, seen, values, Keys(key));
  }
}
