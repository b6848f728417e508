/**
  COUNT and EXISTS statements: compiled, read back and executed.
 */
module SqlCounting {
  import opened Values
  import opened Predicates
  import opened SqlText
  import opened SqlSearch
  import opened SqlCompiler
  import opened SqlMeaning
  import opened SqlStatements
  import opened SqlExecution
  import opened Selects
  import opened SqlMutations

  // ----- the text -----

  function CountCall(): Phrase {
    Append(Append(Append(Append(Sp(T(Keyword("SELECT"))), T(Keyword("COUNT"))), T(Punct('('))), T(Punct('*'))), T(Punct(')')))
  }

  function CountHead(table: string): Phrase {
    Then(Then(Then(Then(CountCall(), Keyword("AS")), Ident("count")), Keyword("FROM")), Ident(table))
  }

  function CountPhrase(table: string, filters: seq<Pred>): Phrase {
    With(CountHead(table), WherePhrase(filters, 0))
  }

  function InnerHead(table: string): Phrase {
    Then(Then(Then(T(Keyword("SELECT")), Number(1)), Keyword("FROM")), Ident(table))
  }

  function LimitOne(): Phrase {
    Then(T(Keyword("LIMIT")), Number(1))
  }

  function InnerPhrase(table: string, filters: seq<Pred>): Phrase {
    With(With(InnerHead(table), WherePhrase(filters, 0)), Some(LimitOne()))
  }

  function ExistsOpen(): Phrase {
    Append(Append(Sp(T(Keyword("SELECT"))), T(Keyword("EXISTS"))), T(Punct('(')))
  }

  function ExistsPhrase(table: string, filters: seq<Pred>): Phrase {
    Then(Then(Append(Append(ExistsOpen(), InnerPhrase(table, filters)), T(Punct(')'))), Keyword("AS")), Ident("exists"))
  }

  function CountFault(table: string, filters: seq<Pred>): Option<CompileError> {
    FirstFault(NameFault(table, false), FaultIn(filters))
  }

  function CountSql(table: string, alias: string): string {
    "SELECT" + " " + "COUNT" + "(" + "*" + ")" + " " + "AS" + " " + alias + " " + "FROM" + " " + table
  }

  function ExistsSql(table: string, clause: string, alias: string): string {
    var inner := JoinClause("SELECT" + " " + "1" + " " + "FROM" + " " + table, clause) + " " + ("LIMIT" + " " + "1");
    "SELECT" + " " + "EXISTS" + "(" + inner + ")" + " " + "AS" + " " + alias
  }

  lemma CountHeadText(d: Dialect, table: string)
    ensures TextOf(d, CountHead(table)) == CountSql(Delimit(table, d.QuoteChar()), Delimit("count", d.QuoteChar()))
  {
    hide TextOf, Delimit, Then, Append, Sp, T;
  }

  lemma ExistsText(d: Dialect, table: string, filters: seq<Pred>, clause: string)
    requires ClauseText(d, WherePhrase(filters, 0), clause)
    ensures ExistsSql(Delimit(table, d.QuoteChar()), clause, Delimit("exists", d.QuoteChar())) ==
      TextOf(d, ExistsPhrase(table, filters))
  {
    hide WherePhrase, Delimit, TextOf, Then, Append, Sp, T;
    assert Decimal(1) == "1";
    WithText(d, InnerHead(table), WherePhrase(filters, 0), clause);
  }

  method CompileCount(d: Dialect, table: string, filters: seq<Pred>) returns (r: Result<Statement, CompileError>)
    ensures var fault := CountFault(table, filters);
            if fault.Some? then r == Err(fault.value)
            else r == Ok(Statement(TextOf(d, CountPhrase(table, filters)), ValuesIn(filters)))
  {
    hide WherePhrase, TextOf, Delimit, CountHead, CountSql, With, JoinClause, ClauseText;
    var count := Quote(d, "count");
    var name := Quote(d, table);
    if name.Err? {
      return Err(name.error);
    }
    var params := new ParameterCollector(d.Style());
    var clause := Where(d, filters, params);
    if clause.Err? {
      return Err(clause.error);
    }
    CountHeadText(d, table);
    WithText(d, CountHead(table), WherePhrase(filters, 0), clause.value);
    r := Ok(Statement(JoinClause(CountSql(name.value, count.value), clause.value), params.values));
  }

  method CompileExists(d: Dialect, table: string, filters: seq<Pred>) returns (r: Result<Statement, CompileError>)
    ensures var fault := CountFault(table, filters);
            if fault.Some? then r == Err(fault.value)
            else r == Ok(Statement(TextOf(d, ExistsPhrase(table, filters)), ValuesIn(filters)))
  {
    hide WherePhrase, TextOf, Delimit, ExistsPhrase, ExistsSql, ClauseText;
    var name := Quote(d, table);
    if name.Err? {
      return Err(name.error);
    }
    var params := new ParameterCollector(d.Style());
    var clause := Where(d, filters, params);
    if clause.Err? {
      return Err(clause.error);
    }
    var found := Quote(d, "exists");
    ExistsText(d, table, filters, clause.value);
    r := Ok(Statement(ExistsSql(name.value, clause.value, found.value), params.values));
  }

  // ----- reading and executing it -----

  datatype Probe = CountRows(table: string, condition: Option<Cond>) | AnyRow(table: string, condition: Option<Cond>)

  predicate CountOpens(ts: seq<Token>) {
    |ts| >= 9 && ts[..5] == [Keyword("SELECT"), Keyword("COUNT"), Punct('('), Punct('*'), Punct(')')]
    && ts[5] == Keyword("AS") && ts[6].Ident? && ts[7] == Keyword("FROM") && ts[8].Ident?
  }

  predicate ExistsOpens(ts: seq<Token>) {
    |ts| >= 7 && ts[..6] == [Keyword("SELECT"), Keyword("EXISTS"), Punct('('), Keyword("SELECT"), Number(1), Keyword("FROM")]
    && ts[6].Ident?
  }

  predicate ExistsCloses(ts: seq<Token>) {
    |ts| == 5 && ts[..4] == [Keyword("LIMIT"), Number(1), Punct(')'), Keyword("AS")] && ts[4].Ident?
  }

  function ParseProbe(ts: seq<Token>): Option<Probe> {
    if CountOpens(ts) then
      var c := ParseWhere(ts[9..]);
      if c.None? || c.value.1 != [] then None else Some(CountRows(ts[8].name, c.value.0))
    else if ExistsOpens(ts) then
      var c := ParseWhere(ts[7..]);
      if c.None? || !ExistsCloses(c.value.1) then None else Some(AnyRow(ts[6].name, c.value.0))
    else None
  }

  /** The number the statement yields: a count, or 1 for true and 0 for false. */
  function Answer(p: Probe, params: seq<Value>, table: seq<Row>): nat {
    var rows := Selected(table, params, p.condition);
    if p.CountRows? then |rows| else if rows == [] then 0 else 1
  }

  /** The same on a table with these columns, which refuses names of others. */
  function Probed(types: Schema, p: Probe, params: seq<Value>, table: seq<Row>): Option<nat> {
    if p.condition.Some? && !CondKnown(p.condition.value, types.Keys) then None else Some(Answer(p, params, table))
  }

  // ----- round trips -----

  lemma CallReads()
    ensures Tokens(CountCall()) == [Keyword("SELECT"), Keyword("COUNT"), Punct('('), Punct('*'), Punct(')')]
    ensures Aligned(CountCall(), 0, 0)
  {
    hide Aligned, Tokens, Append, Sp, T, Last;
    var select := Sp(T(Keyword("SELECT")));
    TTokens(Keyword("SELECT"));
    TokenAligned(Keyword("SELECT"), 0);
    ThenTokens(T(Keyword("SELECT")), Keyword("SELECT"));
    ThenAligned(T(Keyword("SELECT")), Keyword("SELECT"), 0, 0);
    TokenMore(select, Keyword("COUNT"));
    TokenMore(Append(select, T(Keyword("COUNT"))), Punct('('));
    TokenMore(Append(Append(select, T(Keyword("COUNT"))), T(Punct('('))), Punct('*'));
    TokenMore(Append(Append(Append(select, T(Keyword("COUNT"))), T(Punct('('))), T(Punct('*'))), Punct(')'));
  }

  lemma TokenMore(l: Phrase, t: Token)
    requires Aligned(l, 0, 0) && Printable(t) && !t.Bind? && (Neutral(Last(l)) || Neutral(Tok(t)))
    ensures Aligned(Append(l, T(t)), 0, 0)
    ensures Tokens(Append(l, T(t))) == Tokens(l) + [t] && Last(Append(l, T(t))) == Tok(t)
  {
    TTokens(t);
    TokenAligned(t, 0);
    AppendTokens(l, T(t));
    AppendAligned(l, T(t), 0, 0, 0);
  }

  lemma CountHeadReads(table: string)
    ensures Tokens(CountHead(table)) ==
      [Keyword("SELECT"), Keyword("COUNT"), Punct('('), Punct('*'), Punct(')')] + [Keyword("AS"), Ident("count"), Keyword("FROM"), Ident(table)]
    ensures Aligned(CountHead(table), 0, 0)
  {
    hide Aligned, Tokens, CountCall, Then;
    CallReads();
    var a := Then(CountCall(), Keyword("AS"));
    var b := Then(a, Ident("count"));
    var c := Then(b, Keyword("FROM"));
    ThenTokens(CountCall(), Keyword("AS"));
    ThenAligned(CountCall(), Keyword("AS"), 0, 0);
    ThenTokens(a, Ident("count"));
    ThenAligned(a, Ident("count"), 0, 0);
    ThenTokens(b, Keyword("FROM"));
    ThenAligned(b, Keyword("FROM"), 0, 0);
    ThenTokens(c, Ident(table));
    ThenAligned(c, Ident(table), 0, 0);
  }

  lemma CountParses(table: string, filters: seq<Pred>)
    requires forall p :: p in filters ==> Grounded(p)
    ensures ParseProbe([Keyword("SELECT"), Keyword("COUNT"), Punct('('), Punct('*'), Punct(')')]
                       + [Keyword("AS"), Ident("count"), Keyword("FROM"), Ident(table)] + WhereTokens(filters, 0)) ==
      Some(CountRows(table, WhereCond(filters, 0)))
  {
    hide WhereTokens, WhereCond;
    var w := WhereTokens(filters, 0);
    WhereParses(filters, 0, []);
    assert w + [] == w;
    var ts := [Keyword("SELECT"), Keyword("COUNT"), Punct('('), Punct('*'), Punct(')')]
              + [Keyword("AS"), Ident("count"), Keyword("FROM"), Ident(table)] + w;
    assert ts[..5] == [Keyword("SELECT"), Keyword("COUNT"), Punct('('), Punct('*'), Punct(')')];
    assert ts[9..] == w;
  }

  lemma CountRoundTrip(d: Dialect, table: string, filters: seq<Pred>)
    requires forall p :: p in filters ==> Grounded(p)
    ensures ParseProbe(Lex(d, TextOf(d, CountPhrase(table, filters)), 0)) == Some(CountRows(table, WhereCond(filters, 0)))
  {
    hide WhereTokens, WhereCond, CountHead, WherePhrase, ParseProbe;
    CountHeadReads(table);
    ThenWhere(CountHead(table), filters, 0);
    LexPhrase(d, CountPhrase(table, filters), 0);
    CountParses(table, filters);
  }

  lemma InnerHeadReads(table: string)
    ensures Tokens(InnerHead(table)) == [Keyword("SELECT"), Number(1), Keyword("FROM"), Ident(table)]
    ensures Aligned(InnerHead(table), 0, 0)
    ensures First(InnerHead(table)) == Tok(Keyword("SELECT"))
  {
    var a := T(Keyword("SELECT"));
    var b := Then(a, Number(1));
    var c := Then(b, Keyword("FROM"));
    TTokens(Keyword("SELECT"));
    TokenAligned(Keyword("SELECT"), 0);
    hide Aligned, Tokens, Then, T;
    ThenTokens(a, Number(1));
    ThenAligned(a, Number(1), 0, 0);
    ThenTokens(b, Keyword("FROM"));
    ThenAligned(b, Keyword("FROM"), 0, 0);
    ThenTokens(c, Ident(table));
    ThenAligned(c, Ident(table), 0, 0);
  }

  lemma InnerReads(table: string, filters: seq<Pred>)
    ensures Tokens(InnerPhrase(table, filters)) ==
      [Keyword("SELECT"), Number(1), Keyword("FROM"), Ident(table)] + WhereTokens(filters, 0) + [Keyword("LIMIT"), Number(1)]
    ensures Aligned(InnerPhrase(table, filters), 0, |ValuesIn(filters)|)
  {
    hide WhereTokens, InnerHead, WherePhrase, With;
    var n := |ValuesIn(filters)|;
    InnerHeadReads(table);
    ThenWhere(InnerHead(table), filters, 0);
    TTokens(Keyword("LIMIT"));
    TokenAligned(Keyword("LIMIT"), n);
    ThenTokens(T(Keyword("LIMIT")), Number(1));
    ThenAligned(T(Keyword("LIMIT")), Number(1), n, 0);
    WithReads(With(InnerHead(table), WherePhrase(filters, 0)), Some(LimitOne()), [Keyword("LIMIT"), Number(1)], 0, n, 0);
  }

  function ExistsTokens(table: string, filters: seq<Pred>): seq<Token> {
    [Keyword("SELECT"), Keyword("EXISTS"), Punct('(')]
    + ([Keyword("SELECT"), Number(1), Keyword("FROM"), Ident(table)] + WhereTokens(filters, 0) + [Keyword("LIMIT"), Number(1)])
    + [Punct(')'), Keyword("AS"), Ident("exists")]
  }

  lemma ExistsOpenReads()
    ensures Tokens(ExistsOpen()) == [Keyword("SELECT"), Keyword("EXISTS"), Punct('(')]
    ensures Aligned(ExistsOpen(), 0, 0) && Last(ExistsOpen()) == Tok(Punct('('))
  {
    var select := Sp(T(Keyword("SELECT")));
    TTokens(Keyword("SELECT"));
    TokenAligned(Keyword("SELECT"), 0);
    ThenTokens(T(Keyword("SELECT")), Keyword("SELECT"));
    ThenAligned(T(Keyword("SELECT")), Keyword("SELECT"), 0, 0);
    TokenMore(select, Keyword("EXISTS"));
    TokenMore(Append(select, T(Keyword("EXISTS"))), Punct('('));
  }

  lemma ExistsReads(table: string, filters: seq<Pred>)
    ensures Tokens(ExistsPhrase(table, filters)) == ExistsTokens(table, filters)
    ensures Aligned(ExistsPhrase(table, filters), 0, |ValuesIn(filters)|)
  {
    hide InnerPhrase, ExistsOpen, WhereTokens, Aligned, Tokens, Then, Append, T, With;
    var n := |ValuesIn(filters)|;
    var inner := InnerPhrase(table, filters);
    InnerReads(table, filters);
    ExistsOpenReads();
    AppendTokens(ExistsOpen(), inner);
    AppendAligned(ExistsOpen(), inner, 0, 0, n);
    var opening := Append(ExistsOpen(), inner);
    TTokens(Punct(')'));
    TokenAligned(Punct(')'), n);
    AppendTokens(opening, T(Punct(')')));
    AppendAligned(opening, T(Punct(')')), 0, n, 0);
    var closed := Append(opening, T(Punct(')')));
    ThenTokens(closed, Keyword("AS"));
    ThenAligned(closed, Keyword("AS"), 0, n);
    ThenTokens(Then(closed, Keyword("AS")), Ident("exists"));
    ThenAligned(Then(closed, Keyword("AS")), Ident("exists"), 0, n);
    ThreeMore(Tokens(opening), Punct(')'), Keyword("AS"), Ident("exists"));
  }

  lemma ThreeMore(ts: seq<Token>, a: Token, b: Token, c: Token)
    ensures ts + [a] + [b] + [c] == ts + [a, b, c]
  {
  }

  lemma ExistsParses(table: string, filters: seq<Pred>)
    requires forall p :: p in filters ==> Grounded(p)
    ensures ParseProbe(ExistsTokens(table, filters)) == Some(AnyRow(table, WhereCond(filters, 0)))
  {
    hide WhereTokens, WhereCond, ParseWhere;
    WhereParses(filters, 0, [Keyword("LIMIT"), Number(1), Punct(')'), Keyword("AS"), Ident("exists")]);
    ExistsShape(table, WhereTokens(filters, 0));
  }

  lemma ExistsShape(table: string, w: seq<Token>)
    ensures
      var ts := [Keyword("SELECT"), Keyword("EXISTS"), Punct('(')]
        + ([Keyword("SELECT"), Number(1), Keyword("FROM"), Ident(table)] + w + [Keyword("LIMIT"), Number(1)])
        + [Punct(')'), Keyword("AS"), Ident("exists")];
      var rest := [Keyword("LIMIT"), Number(1), Punct(')'), Keyword("AS"), Ident("exists")];
      ExistsOpens(ts) && ts[6] == Ident(table) && ts[7..] == w + rest && ExistsCloses(rest)
  {
    var rest := [Keyword("LIMIT"), Number(1), Punct(')'), Keyword("AS"), Ident("exists")];
    assert rest[..4] == [Keyword("LIMIT"), Number(1), Punct(')'), Keyword("AS")];
  }

  lemma ExistsRoundTrip(d: Dialect, table: string, filters: seq<Pred>)
    requires forall p :: p in filters ==> Grounded(p)
    ensures ParseProbe(Lex(d, TextOf(d, ExistsPhrase(table, filters)), 0)) == Some(AnyRow(table, WhereCond(filters, 0)))
  {
    hide WhereTokens, WhereCond, ExistsPhrase, ExistsTokens, ParseProbe;
    ExistsReads(table, filters);
    LexPhrase(d, ExistsPhrase(table, filters), 0);
    ExistsParses(table, filters);
  }

  // ----- the meaning -----

  /** A compiled COUNT, executed, gives the number of rows the engine's filters match. */
  lemma CountPreservesMeaning(d: Dialect, name: string, filters: seq<Pred>, types: Schema, table: seq<Row>)
    requires Suits(filters, types, table)
    ensures
      var p := ParseProbe(Lex(d, TextOf(d, CountPhrase(name, filters)), 0));
      && p.Some? && p.value.table == name
      && Probed(types, p.value, ValuesIn(filters), table) == Some(|Filtered(table, filters)|)
  {
    SuitedFiltersKnown(filters, 0, types, table);
    SelectedIsFiltered(table, filters, types);
    CountRoundTrip(d, name, filters);
  }

  /** A compiled EXISTS, executed, tells whether the engine's filters match any row. */
  lemma ExistsPreservesMeaning(d: Dialect, name: string, filters: seq<Pred>, types: Schema, table: seq<Row>)
    requires Suits(filters, types, table)
    ensures
      var p := ParseProbe(Lex(d, TextOf(d, ExistsPhrase(name, filters)), 0));
      && p.Some? && p.value.table == name
      && Probed(types, p.value, ValuesIn(filters), table) == Some(if Filtered(table, filters) != [] then 1 else 0)
  {
    SuitedFiltersKnown(filters, 0, types, table);
    SelectedIsFiltered(table, filters, types);
    ExistsRoundTrip(d, name, filters);
  }

  /** Filters of one shape give one COUNT and one EXISTS. */
  lemma ProbesShowNoValue(d: Dialect, table: string, filters: seq<Pred>, others: seq<Pred>)
    requires SameShapes(filters, others)
    ensures TextOf(d, CountPhrase(table, filters)) == TextOf(d, CountPhrase(table, others))
    ensures TextOf(d, ExistsPhrase(table, filters)) == TextOf(d, ExistsPhrase(table, others))
  {
    ShapesDecideText(filters, others, "AND", 0);
  }
}
