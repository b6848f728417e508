/**
  Streaming a query from a SQL database by walking LIMIT/OFFSET windows: the windows put together are
  the result of the one query.
 */
module SqlStreaming {
  import opened Values
  import opened Predicates
  import opened SqlText
  import opened SqlSearch
  import opened SqlCompiler
  import opened SqlMeaning
  import opened SqlStatements
  import opened SqlExecution
  import opened Selects
  import Ordering
  import Sorting

  /** What the database answers instead of rows: the compiler's error, that the text is no statement, or that
      it names a column the table does not have. */
  datatype Failure = NotCompiled(error: CompileError) | NotSql | UnknownColumn

  // ----- the result a window is cut from -----

  function Params(q: Select): seq<Value> {
    ValuesIn(q.filters)
  }

  ghost predicate Parses(q: Select) {
    forall p :: p in q.filters ==> Grounded(p)
  }

  /** The whole ordered result of the compiled query, before its window. */
  ghost function WholeResult(schema: ModelSchema, q: Select, table: seq<Row>): seq<Row>
    requires Parses(q)
  {
    ColumnsOfEach(Sorting.Sort(Selected(table, Params(q), WhereCond(q.filters, 0)), Ordering.OrderLeq(q.sort)),
                  ProjectedColumns(schema, q.projection))
  }

  lemma {:induction false} ColumnsSize(rows: seq<Row>, names: seq<string>)
    ensures |ColumnsOfEach(rows, names)| == |rows|
  {
    if names != [] && rows != [] {
      ColumnsSize(rows[1..], names);
    }
  }

  lemma {:induction false} ColumnsFrom(rows: seq<Row>, names: seq<string>, n: nat)
    requires n <= |rows| == |ColumnsOfEach(rows, names)|
    ensures ColumnsOfEach(rows[n..], names) == ColumnsOfEach(rows, names)[n..]
  {
    if n > 0 && names != [] {
      ColumnsSize(rows[1..], names);
      ColumnsFrom(rows[1..], names, n - 1);
      assert rows[n..] == rows[1..][n - 1..];
    }
  }

  lemma {:induction false} ColumnsUpTo(rows: seq<Row>, names: seq<string>, n: nat)
    requires n <= |rows| == |ColumnsOfEach(rows, names)|
    ensures ColumnsOfEach(rows[..n], names) == ColumnsOfEach(rows, names)[..n]
  {
    if n > 0 && names != [] {
      ColumnsSize(rows[1..], names);
      ColumnsUpTo(rows[1..], names, n - 1);
      assert rows[..n][1..] == rows[1..][..n - 1];
    }
  }

  lemma WindowOfColumns(rows: seq<Row>, names: seq<string>, limit: Option<nat>, offset: nat)
    ensures ColumnsOfEach(Window(rows, limit, offset), names) == Window(ColumnsOfEach(rows, names), limit, offset)
  {
    ColumnsSize(rows, names);
    if offset <= |rows| {
      ColumnsFrom(rows, names, offset);
      var rest := rows[offset..];
      ColumnsSize(rest, names);
      if limit.Some? && limit.value <= |rest| {
        ColumnsUpTo(rest, names, limit.value);
      }
    } else {
      ColumnsSize([], names);
    }
  }

  /** The text of a query with a limit, executed, gives its window of the whole result. */
  lemma ExecutedIsWindow(d: Dialect, schema: ModelSchema, q: Select, table: seq<Row>)
    requires Parses(q) && (q.limit.Some? || |WholeResult(schema, q, table)| <= MAX_LIMIT)
    ensures Execute(QueryOf(d, schema, q), Params(q), table) == Window(WholeResult(schema, q, table), q.limit, q.offset)
  {
    var query := QueryOf(d, schema, q);
    var ordered := Sorting.Sort(Selected(table, Params(q), WhereCond(q.filters, 0)), Ordering.OrderLeq(q.sort));
    WindowOfColumns(ordered, query.columns, query.limit, query.offset);
  }

  /** On tables the filters suit, the streamed query is the reference engine's select. */
  lemma StreamedIsReference(schema: ModelSchema, types: Schema, q: Select, table: seq<Row>)
    requires schema.primaryKey.Some? && |table| <= MAX_LIMIT && Suits(q.filters, types, table)
    ensures Parses(q) && (SelectKnown(schema, q, types.Keys) <==> OutputKnown(schema, q, types.Keys))
    ensures Window(WholeResult(schema, q, table), q.limit, q.offset) == ReferenceSelect(q, schema.primaryKey.value, table)
  {
    hide Execute, ReferenceSelect, Suits, ParseSelect, OutputKnown, FieldsKnown, CondKnown;
    SuitedFiltersKnown(q.filters, 0, types, table);
    WholeSize(schema, q, table);
    ExecutedIsWindow(Sqlite, schema, q, table);
    ExecutedIsReference(Sqlite, schema, types, q, table);
  }

  lemma {:induction false} SelectedSize(rows: seq<Row>, params: seq<Value>, condition: Option<Cond>)
    ensures |Selected(rows, params, condition)| <= |rows|
  {
    if rows != [] {
      SelectedSize(rows[1..], params, condition);
    }
  }

  lemma WholeSize(schema: ModelSchema, q: Select, table: seq<Row>)
    requires Parses(q)
    ensures |WholeResult(schema, q, table)| <= |table|
  {
    var kept := Selected(table, Params(q), WhereCond(q.filters, 0));
    SelectedSize(table, Params(q), WhereCond(q.filters, 0));
    Ordering.OrderPreorder(q.sort);
    Sorting.SortCorrect(kept, Ordering.OrderLeq(q.sort));
    var ordered := Sorting.Sort(kept, Ordering.OrderLeq(q.sort));
    assert |multiset(ordered)| == |ordered| && |multiset(kept)| == |kept|;
    ColumnsSize(ordered, ProjectedColumns(schema, q.projection));
  }

  // ----- the stream -----

  ghost function FailureOf(schema: ModelSchema, types: Schema, q: Select): Option<Failure> {
    if SelectFault(schema, q).Some? then Some(NotCompiled(SelectFault(schema, q).value))
    else if !Parses(q) then Some(NotSql)
    else if !SelectKnown(schema, q, types.Keys) then Some(UnknownColumn)
    else None
  }

  /** One window: the query is compiled, and the database reads the text and executes it. */
  method FetchWindow(d: Dialect, schema: ModelSchema, types: Schema, q: Select, table: seq<Row>)
    returns (r: Result<seq<Row>, Failure>)
    requires q.limit.Some?
    ensures FailureOf(schema, types, q).Some? ==> r == Err(FailureOf(schema, types, q).value)
    ensures FailureOf(schema, types, q).None? ==> r == Ok(Window(WholeResult(schema, q, table), q.limit, q.offset))
  {
    hide Execute, ParseSelect, SelectPhrase, SelectFault, Window, WholeResult, QueryKnown, SelectKnown;
    var statement := CompileSelect(d, schema, q);
    if statement.Err? {
      return Err(NotCompiled(statement.error));
    }
    SelectParsesExactly(d, schema, q);
    var query := ParseSelect(Lex(d, statement.value.sql, 0));
    if query.None? {
      return Err(NotSql);
    }
    SelectRoundTrip(d, schema, q);
    ExecutedIsWindow(d, schema, q, table);
    KnownExactly(d, schema, q, types.Keys);
    var rows := Answered(types, query.value, statement.value.params, table);
    r := if rows.None? then Err(UnknownColumn) else Ok(rows.value);
  }

  function Flatten<T>(pages: seq<seq<T>>): seq<T> {
    if pages == [] then [] else Flatten(pages[..|pages| - 1]) + pages[|pages| - 1]
  }

  /** A short window is the end of the result. */
  lemma ShortWindow<T>(rows: seq<T>, limit: Option<nat>, offset: nat, window: nat)
    requires (limit.Some? ==> window <= limit.value) && |Window(rows, Some(window), offset)| < window
    ensures Window(rows, limit, offset) == Window(rows, Some(window), offset)
  {
  }

  function Less(limit: Option<nat>, window: nat): Option<nat>
    requires limit.Some? ==> window <= limit.value
  {
    if limit.Some? then Some(limit.value - window) else None
  }

  /** After a full window the rest of the result follows. */
  lemma FullWindow<T>(rows: seq<T>, limit: Option<nat>, offset: nat, window: nat)
    requires 0 < window <= |Window(rows, Some(window), offset)| && (limit.Some? ==> window <= limit.value)
    ensures |Window(rows, Some(window), offset)| == window && offset + window <= |rows|
    ensures Window(rows, limit, offset) == Window(rows, Some(window), offset) + Window(rows, Less(limit, window), offset + window)
  {
    var rest := rows[offset..];
    assert rows[offset + window..] == rest[window..];
    if limit.Some? && limit.value <= |rest| {
      assert rest[..limit.value] == rest[..window] + rest[window..limit.value];
      assert rest[window..limit.value] == rest[window..][..limit.value - window];
    } else {
      assert rest == rest[..window] + rest[window..];
    }
  }

  lemma NothingLeft<T>(rows: seq<T>, offset: nat)
    ensures Window(rows, Some(0), offset) == []
  {
  }

  ghost predicate Pages(pages: seq<seq<Row>>, out: seq<Row>, batch: int) {
    Flatten(pages) == out && forall i :: 0 <= i < |pages| ==> |pages[i]| <= batch
  }

  lemma OnePageMore(pages: seq<seq<Row>>, out: seq<Row>, batch: int, page: seq<Row>)
    requires Pages(pages, out, batch) && |page| <= batch
    ensures Pages(pages + [page], out + page, batch)
  {
    assert (pages + [page])[..|pages|] == pages;
  }

  function WindowSize(batch: int, remaining: Option<nat>): int {
    if remaining.None? || batch <= remaining.value then batch else remaining.value
  }

  /** With a positive batch size the stream yields exactly the rows of the one query with the caller's
      own limit and offset, in order, and no window is larger than the batch. A batch size that is not
      positive yields nothing, and asks nothing of the database. */
  method StreamQuery(d: Dialect, schema: ModelSchema, types: Schema, q: Select, table: seq<Row>, batch: int)
    returns (r: Result<seq<Row>, Failure>, ghost pages: seq<seq<Row>>)
    ensures r.Err? <==> WindowSize(batch, q.limit) > 0 && FailureOf(schema, types, q).Some?
    ensures r.Err? ==> r.error == FailureOf(schema, types, q).value
    ensures r.Ok? && batch <= 0 ==> r.value == []
    ensures r.Ok? && batch > 0 && Parses(q) ==> r.value == Window(WholeResult(schema, q, table), q.limit, q.offset)
    ensures r.Ok? && batch > 0 && !Parses(q) ==> r.value == []
    ensures r.Ok? ==> Pages(pages, r.value, batch)
  {
    hide WholeResult, SelectFault, Window, Parses, SelectKnown;
    ghost var whole := if Parses(q) then WholeResult(schema, q, table) else [];
    var out: seq<Row> := [];
    var offset := q.offset;
    var remaining: Option<nat> := q.limit;
    pages := [];
    assert [] + Window(whole, q.limit, q.offset) == Window(whole, q.limit, q.offset);
    while true
      invariant out + Window(whole, remaining, offset) == Window(whole, q.limit, q.offset)
      invariant Pages(pages, out, batch)
      invariant if pages == [] then out == [] && remaining == q.limit
                else FailureOf(schema, types, q).None? && WindowSize(batch, q.limit) > 0
      decreases if offset <= |whole| then |whole| - offset else 0
    {
      var window := WindowSize(batch, remaining);
      if window <= 0 {
        NothingLeft(whole, offset);
        return Ok(out), pages;
      }
      var fetched := FetchWindow(d, schema, types, q.(limit := Some(window), offset := offset), table);
      SameQuery(schema, types, q, Some(window), offset, table);
      if fetched.Err? {
        return Err(fetched.error), pages;
      }
      var page := fetched.value;
      WindowBound(whole, window, offset);
      OnePageMore(pages, out, batch, page);
      if |page| < window {
        ShortWindow(whole, remaining, offset, window);
        return Ok(out + page), pages + [page];
      }
      FullWindow(whole, remaining, offset, window);
      AppendTwice(out, page, Window(whole, Less(remaining, window), offset + window));
      pages, out := pages + [page], out + page;
      offset := offset + window;
      if remaining.Some? {
        remaining := Some(remaining.value - |page|);
        if remaining.value <= 0 {
          NothingLeft(whole, offset);
          return Ok(out), pages;
        }
      }
    }
  }

  lemma WindowBound<T>(rows: seq<T>, window: nat, offset: nat)
    ensures |Window(rows, Some(window), offset)| <= window
  {
  }

  /** Limit and offset change neither the errors of a query nor its whole result. */
  lemma SameQuery(schema: ModelSchema, types: Schema, q: Select, limit: Option<nat>, offset: nat, table: seq<Row>)
    ensures
      var window := q.(limit := limit, offset := offset);
      && FailureOf(schema, types, window) == FailureOf(schema, types, q) && (Parses(window) <==> Parses(q))
      && (Parses(q) ==> WholeResult(schema, window, table) == WholeResult(schema, q, table))
  {
  }
}
