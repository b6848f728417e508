/**
  The clauses of a SELECT statement as the compiler assembles them, one space between two clauses
  and the empty ones left out.
 */
module SqlStatements {
  import opened Values
  import opened Predicates
  import opened SqlText
  import opened SqlCompiler
  import opened Selects

  datatype ModelSchema = ModelSchema(name: string, primaryKey: Option<string>)

  datatype Statement = Statement(sql: string, params: seq<Value>)

  const MAX_LIMIT: nat := 18446744073709551615

  // ----- specification -----

  function NameFault(name: string, dotted: bool): Option<CompileError> {
    if (dotted && '.' in name) || '\0' in name then Some(DialectError) else None
  }

  function NamesFault(names: seq<string>): Option<CompileError> {
    if names == [] then None
    else if NameFault(names[0], true).Some? then NameFault(names[0], true)
    else NamesFault(names[1..])
  }

  function SortFault(sort: seq<SortTerm>): Option<CompileError> {
    if sort == [] then None
    else if NameFault(sort[0].field, true).Some? then NameFault(sort[0].field, true)
    else SortFault(sort[1..])
  }

  function FirstFault(a: Option<CompileError>, b: Option<CompileError>): Option<CompileError> {
    if a.Some? then a else b
  }

  /** The projected columns, the primary key appended when missing. */
  function ProjectedColumns(schema: ModelSchema, projection: seq<string>): seq<string> {
    if projection == [] || schema.primaryKey.None? || schema.primaryKey.value in projection then projection
    else projection + [schema.primaryKey.value]
  }

  function SelectFault(schema: ModelSchema, q: Select): Option<CompileError> {
    FirstFault(NameFault(schema.name, false), FirstFault(NamesFault(ProjectedColumns(schema, q.projection)),
      FirstFault(FaultIn(q.filters), SortFault(q.sort))))
  }

  /** Phrases separated by commas. */
  function ListPhrase(ps: seq<Phrase>): Phrase
    requires ps != []
  {
    var last := ps[|ps| - 1];
    if |ps| == 1 then last else Append(Sp(Append(ListPhrase(ps[..|ps| - 1]), T(Punct(',')))), last)
  }

  function IdentPhrases(names: seq<string>): (r: seq<Phrase>)
    ensures |r| == |names| && forall i :: 0 <= i < |names| ==> r[i] == T(Ident(names[i]))
  {
    seq(|names|, i requires 0 <= i < |names| => T(Ident(names[i])))
  }

  function ColumnsPhrase(columns: seq<string>): Phrase {
    if columns == [] then T(Punct('*')) else ListPhrase(IdentPhrases(columns))
  }

  function SelectHead(table: string, columns: seq<string>): Phrase {
    Then(Then(Append(Sp(T(Keyword("SELECT"))), ColumnsPhrase(columns)), Keyword("FROM")), Ident(table))
  }

  /** The clause after what precedes it, a space between the two. */
  function With(before: Phrase, clause: Option<Phrase>): Phrase {
    if clause.None? then before else Append(Sp(before), clause.value)
  }

  function WherePhrase(filters: seq<Pred>, n: nat): Option<Phrase> {
    if filters == [] then None
    else Some(Append(Sp(T(Keyword("WHERE"))), JoinedPhrase(filters, "AND", n)))
  }

  function SortPhrase(term: SortTerm): Phrase {
    Then(T(Ident(term.field)), Keyword(if term.descending then "DESC" else "ASC"))
  }

  function SortPhrases(sort: seq<SortTerm>): (r: seq<Phrase>)
    ensures |r| == |sort| && forall i :: 0 <= i < |sort| ==> r[i] == SortPhrase(sort[i])
  {
    seq(|sort|, i requires 0 <= i < |sort| => SortPhrase(sort[i]))
  }

  function OrderPhrase(sort: seq<SortTerm>): Option<Phrase> {
    if sort == [] then None
    else Some(Append(Sp(Then(T(Keyword("ORDER")), Keyword("BY"))), ListPhrase(SortPhrases(sort))))
  }

  /** An offset needs a limit before it: `-1` for SQLite, the largest one elsewhere. */
  function EffectiveLimit(d: Dialect, limit: Option<nat>): Option<nat> {
    if limit.Some? || d.Sqlite? then limit else Some(MAX_LIMIT)
  }

  function LimitClause(limit: Option<nat>): Phrase {
    if limit.None? then Append(Then(T(Keyword("LIMIT")), Punct('-')), T(Number(1)))
    else Then(T(Keyword("LIMIT")), Number(limit.value))
  }

  function LimitPhrase(d: Dialect, limit: Option<nat>, offset: nat): Option<Phrase> {
    if offset == 0 then (if limit.None? then None else Some(LimitClause(limit)))
    else Some(Then(Then(LimitClause(EffectiveLimit(d, limit)), Keyword("OFFSET")), Number(offset)))
  }

  function SelectPhrase(d: Dialect, schema: ModelSchema, q: Select): Phrase {
    With(With(With(SelectHead(schema.name, ProjectedColumns(schema, q.projection)),
                   WherePhrase(q.filters, 0)),
              OrderPhrase(q.sort)),
         LimitPhrase(d, q.limit, q.offset))
  }

  // ----- clauses -----

  /** The clauses joined by a space, empty ones skipped. */
  function JoinClause(before: string, clause: string): string {
    if clause == "" then before else before + " " + clause
  }

  ghost predicate ClauseText(d: Dialect, clause: Option<Phrase>, text: string) {
    if clause.None? then text == "" else text != "" && text == TextOf(d, clause.value)
  }

  lemma WithText(d: Dialect, before: Phrase, clause: Option<Phrase>, text: string)
    requires ClauseText(d, clause, text)
    ensures JoinClause(TextOf(d, before), text) == TextOf(d, With(before, clause))
  {
  }

  lemma FaultStep(names: seq<string>, i: nat)
    requires i < |names|
    ensures NamesFault(names[i..]) == FirstFault(NameFault(names[i], true), NamesFault(names[i + 1..]))
  {
    assert names[i..][1..] == names[i + 1..];
  }

  /** `", ".join(parts)` of a non-empty list. */
  function CommaJoin(parts: seq<string>): string
    requires parts != []
  {
    var last := parts[|parts| - 1];
    if |parts| == 1 then last else CommaJoin(parts[..|parts| - 1]) + "," + " " + last
  }

  lemma {:induction false} CommaText(d: Dialect, ps: seq<Phrase>, parts: seq<string>)
    requires |ps| == |parts| > 0 && forall i :: 0 <= i < |ps| ==> parts[i] == TextOf(d, ps[i])
    ensures CommaJoin(parts) == TextOf(d, ListPhrase(ps))
  {
    if |ps| > 1 {
      CommaText(d, ps[..|ps| - 1], parts[..|ps| - 1]);
    }
  }

  method QuoteNames(d: Dialect, names: seq<string>) returns (r: Result<string, CompileError>)
    requires names != []
    ensures Compiled(d, NamesFault(names), ListPhrase(IdentPhrases(names)), r)
  {
    var quoted: seq<string> := [];
    for i := 0 to |names|
      invariant NamesFault(names) == NamesFault(names[i..])
      invariant |quoted| == i && forall k :: 0 <= k < i ==> quoted[k] == Delimit(names[k], d.QuoteChar())
    {
      FaultStep(names, i);
      if '.' in names[i] {
        return Err(DialectError);
      }
      var name := Quote(d, names[i]);
      if name.Err? {
        return name;
      }
      quoted := quoted + [name.value];
    }
    CommaText(d, IdentPhrases(names), quoted);
    r := Ok(CommaJoin(quoted));
  }

  method Where(d: Dialect, filters: seq<Pred>, params: ParameterCollector) returns (r: Result<string, CompileError>)
    requires params.style == d.Style()
    modifies params
    ensures if FaultIn(filters).Some? then r == Err(FaultIn(filters).value)
            else r.Ok? && ClauseText(d, WherePhrase(filters, |old(params.values)|), r.value)
    ensures r.Ok? ==> params.values == old(params.values) + ValuesIn(filters)
    ensures r.Ok? && old(params.values) == [] ==> params.values == ValuesIn(filters)
    ensures old(params.values) <= params.values
  {
    if filters == [] {
      return Ok("");
    }
    var clauses := Join(d, filters, "AND", params);
    if clauses.Err? {
      return clauses;
    }
    r := Ok("WHERE" + " " + clauses.value);
  }

  lemma SortFaultStep(sort: seq<SortTerm>, i: nat)
    requires i < |sort|
    ensures SortFault(sort[i..]) == FirstFault(NameFault(sort[i].field, true), SortFault(sort[i + 1..]))
  {
    assert sort[i..][1..] == sort[i + 1..];
  }

  method OrderTerm(d: Dialect, term: SortTerm) returns (r: Result<string, CompileError>)
    ensures Compiled(d, NameFault(term.field, true), SortPhrase(term), r)
  {
    if '.' in term.field {
      return Err(DialectError);
    }
    r := Quote(d, term.field);
    if r.Ok? {
      r := Ok(r.value + " " + if term.descending then "DESC" else "ASC");
    }
  }

  lemma OrderText(d: Dialect, sort: seq<SortTerm>, terms: seq<string>)
    requires sort != [] && |terms| == |sort|
    requires forall k :: 0 <= k < |sort| ==> terms[k] == TextOf(d, SortPhrase(sort[k]))
    ensures ClauseText(d, OrderPhrase(sort), "ORDER" + " " + "BY" + " " + CommaJoin(terms))
  {
    CommaText(d, SortPhrases(sort), terms);
  }

  method OrderTerms(d: Dialect, sort: seq<SortTerm>) returns (r: Result<seq<string>, CompileError>)
    ensures if SortFault(sort).Some? then r == Err(SortFault(sort).value)
            else r.Ok? && |r.value| == |sort| && forall k :: 0 <= k < |sort| ==> r.value[k] == TextOf(d, SortPhrase(sort[k]))
  {
    hide TextOf, SortPhrase, NameFault;
    var terms: seq<string> := [];
    for i := 0 to |sort|
      invariant SortFault(sort) == SortFault(sort[i..])
      invariant |terms| == i && forall k :: 0 <= k < i ==> terms[k] == TextOf(d, SortPhrase(sort[k]))
    {
      SortFaultStep(sort, i);
      var term := OrderTerm(d, sort[i]);
      if term.Err? {
        return Err(term.error);
      }
      terms := terms + [term.value];
    }
    r := Ok(terms);
  }

  method OrderBy(d: Dialect, sort: seq<SortTerm>) returns (r: Result<string, CompileError>)
    ensures if SortFault(sort).Some? then r == Err(SortFault(sort).value)
            else r.Ok? && ClauseText(d, OrderPhrase(sort), r.value)
  {
    if sort == [] {
      return Ok("");
    }
    var terms := OrderTerms(d, sort);
    if terms.Err? {
      return Err(terms.error);
    }
    OrderText(d, sort, terms.value);
    r := Ok("ORDER" + " " + "BY" + " " + CommaJoin(terms.value));
  }

  function LimitText(limit: Option<nat>): string {
    if limit.None? then "LIMIT" + " " + "-" + "1" else "LIMIT" + " " + Decimal(limit.value)
  }

  function LimitOffset(d: Dialect, limit: Option<nat>, offset: nat): string {
    if offset == 0 then (if limit.None? then "" else LimitText(limit))
    else LimitText(EffectiveLimit(d, limit)) + " " + "OFFSET" + " " + Decimal(offset)
  }

  lemma LimitClauseText(d: Dialect, limit: Option<nat>)
    ensures LimitText(limit) != "" && LimitText(limit) == TextOf(d, LimitClause(limit))
  {
    assert Decimal(1) == "1";
  }

  lemma LimitOffsetText(d: Dialect, limit: Option<nat>, offset: nat)
    ensures ClauseText(d, LimitPhrase(d, limit, offset), LimitOffset(d, limit, offset))
  {
    hide LimitText, LimitClause, Decimal;
    LimitClauseText(d, limit);
    LimitClauseText(d, EffectiveLimit(d, limit));
  }

  // ----- statements -----

  lemma SelectText(d: Dialect, schema: ModelSchema, q: Select, columns: string,
                   clauseWhere: string, clauseOrder: string, clauseLimit: string)
    requires columns == TextOf(d, ColumnsPhrase(ProjectedColumns(schema, q.projection)))
    requires ClauseText(d, WherePhrase(q.filters, 0), clauseWhere)
    requires ClauseText(d, OrderPhrase(q.sort), clauseOrder)
    requires clauseLimit == LimitOffset(d, q.limit, q.offset)
    ensures
      var head := "SELECT" + " " + columns + " " + "FROM" + " " + Delimit(schema.name, d.QuoteChar());
      JoinClause(JoinClause(JoinClause(head, clauseWhere), clauseOrder), clauseLimit) == TextOf(d, SelectPhrase(d, schema, q))
  {
    var head := SelectHead(schema.name, ProjectedColumns(schema, q.projection));
    WithText(d, head, WherePhrase(q.filters, 0), clauseWhere);
    WithText(d, With(head, WherePhrase(q.filters, 0)), OrderPhrase(q.sort), clauseOrder);
    LimitOffsetText(d, q.limit, q.offset);
    WithText(d, With(With(head, WherePhrase(q.filters, 0)), OrderPhrase(q.sort)), LimitPhrase(d, q.limit, q.offset), clauseLimit);
  }

  method CompileSelect(d: Dialect, schema: ModelSchema, q: Select) returns (r: Result<Statement, CompileError>)
    ensures if SelectFault(schema, q).Some? then r == Err(SelectFault(schema, q).value)
            else r == Ok(Statement(TextOf(d, SelectPhrase(d, schema, q)), ValuesIn(q.filters)))
  {
    var table := Quote(d, schema.name);
    if table.Err? {
      return Err(table.error);
    }
    var params := new ParameterCollector(d.Style());
    var columns := Columns(d, ProjectedColumns(schema, q.projection));
    if columns.Err? {
      return Err(columns.error);
    }
    var clauseWhere := Where(d, q.filters, params);
    if clauseWhere.Err? {
      return Err(clauseWhere.error);
    }
    var clauseOrder := OrderBy(d, q.sort);
    if clauseOrder.Err? {
      return Err(clauseOrder.error);
    }
    var clauseLimit := LimitOffset(d, q.limit, q.offset);
    SelectText(d, schema, q, columns.value, clauseWhere.value, clauseOrder.value, clauseLimit);
    var head := "SELECT" + " " + columns.value + " " + "FROM" + " " + table.value;
    r := Ok(Statement(JoinClause(JoinClause(JoinClause(head, clauseWhere.value), clauseOrder.value), clauseLimit), params.values));
  }

  /** The select list; an empty list of names is `*`. */
  method Columns(d: Dialect, names: seq<string>) returns (r: Result<string, CompileError>)
    ensures Compiled(d, NamesFault(names), ColumnsPhrase(names), r)
  {
    if names == [] {
      r := Ok("*");
    } else {
      r := QuoteNames(d, names);
    }
  }
}
