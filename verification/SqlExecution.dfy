/**
  A SELECT statement read back from its text and executed returns what the reference engine returns
  for the query it was compiled from.
 */
module SqlExecution {
  import opened Values
  import opened Sorting
  import opened Predicates
  import opened SqlText
  import opened SqlSearch
  import opened SqlCompiler
  import opened SqlMeaning
  import opened SqlRoundTrip
  import opened SqlAgreement
  import opened SqlStatements
  import opened Selects
  import Ordering

  // ----- reading a SELECT -----

  /** No columns stand for `*`, no limit for an unlimited result. */
  datatype Query = Query(columns: seq<string>, table: string, condition: Option<Cond>, order: seq<SortTerm>,
                         limit: Option<nat>, offset: nat)

  function ParseNames(ts: seq<Token>): (r: Option<(seq<string>, seq<Token>)>)
    ensures r.Some? ==> |r.value.1| < |ts|
  {
    if ts == [] || !ts[0].Ident? then None
    else if |ts| > 1 && ts[1] == Punct(',') then
      var r := ParseNames(ts[2..]);
      if r.None? then None else Some(([ts[0].name] + r.value.0, r.value.1))
    else Some(([ts[0].name], ts[1..]))
  }

  function ParseSorts(ts: seq<Token>): (r: Option<(seq<SortTerm>, seq<Token>)>)
    ensures r.Some? ==> |r.value.1| < |ts|
  {
    if |ts| < 2 || !ts[0].Ident? || ts[1] !in {Keyword("ASC"), Keyword("DESC")} then None
    else
      var term := Ordering.SortTerm(ts[0].name, ts[1] == Keyword("DESC"));
      if |ts| > 2 && ts[2] == Punct(',') then
        var r := ParseSorts(ts[3..]);
        if r.None? then None else Some(([term] + r.value.0, r.value.1))
      else Some(([term], ts[2..]))
  }

  function ParseWhere(ts: seq<Token>): Option<(Option<Cond>, seq<Token>)> {
    if ts != [] && ts[0] == Keyword("WHERE") then
      var r := ParseOr(ts[1..]);
      if r.None? then None else Some((Some(r.value.0), r.value.1))
    else Some((None, ts))
  }

  function ParseOrder(ts: seq<Token>): Option<(seq<SortTerm>, seq<Token>)> {
    if |ts| > 1 && ts[0] == Keyword("ORDER") && ts[1] == Keyword("BY") then ParseSorts(ts[2..])
    else Some(([], ts))
  }

  /** `LIMIT n` or `LIMIT -1`, which is no limit, then `OFFSET m`; nothing may follow. */
  function ParseLimit(ts: seq<Token>): Option<(Option<nat>, nat)> {
    if ts == [] then Some((None, 0))
    else if |ts| < 2 || ts[0] != Keyword("LIMIT") then None
    else if ts[1].Number? then
      var offset := ParseOffset(ts[2..]);
      if offset.None? then None else Some((Some(ts[1].n), offset.value))
    else if |ts| > 2 && ts[1] == Punct('-') && ts[2] == Number(1) then
      var offset := ParseOffset(ts[3..]);
      if offset.None? then None else Some((None, offset.value))
    else None
  }

  function ParseOffset(ts: seq<Token>): Option<nat> {
    if ts == [] then Some(0)
    else if |ts| == 2 && ts[0] == Keyword("OFFSET") && ts[1].Number? then Some(ts[1].n)
    else None
  }

  function ParseColumns(ts: seq<Token>): Option<(seq<string>, seq<Token>)> {
    if ts != [] && ts[0] == Punct('*') then Some(([], ts[1..])) else ParseNames(ts)
  }

  /** The clauses after `SELECT ... FROM table`. */
  function ParseClauses(columns: seq<string>, table: string, ts: seq<Token>): Option<Query> {
    var condition := ParseWhere(ts);
    if condition.None? then None
    else
      var order := ParseOrder(condition.value.1);
      if order.None? then None
      else
        var limit := ParseLimit(order.value.1);
        if limit.None? then None
        else Some(Query(columns, table, condition.value.0, order.value.0, limit.value.0, limit.value.1))
  }

  function ParseSelect(ts: seq<Token>): Option<Query> {
    if ts == [] || ts[0] != Keyword("SELECT") then None
    else
      var columns := ParseColumns(ts[1..]);
      if columns.None? || |columns.value.1| < 2 || columns.value.1[0] != Keyword("FROM") || !columns.value.1[1].Ident? then None
      else ParseClauses(columns.value.0, columns.value.1[1].name, columns.value.1[2..])
  }

  // ----- executing it -----

  predicate Chosen(row: Row, params: seq<Value>, condition: Option<Cond>) {
    condition.None? || Eval(row, params, condition.value).True?
  }

  function Selected(rows: seq<Row>, params: seq<Value>, condition: Option<Cond>): seq<Row> {
    if rows == [] then []
    else
      var rest := Selected(rows[1..], params, condition);
      if Chosen(rows[0], params, condition) then [rows[0]] + rest else rest
  }

  function Window<T>(rows: seq<T>, limit: Option<nat>, offset: nat): seq<T> {
    var rest := if offset <= |rows| then rows[offset..] else [];
    if limit.Some? && limit.value <= |rest| then rest[..limit.value] else rest
  }

  function ColumnsOfEach(rows: seq<Row>, names: seq<string>): seq<Row> {
    if names == [] || rows == [] then rows
    else [OnlyColumns(rows[0], set n | n in names)] + ColumnsOfEach(rows[1..], names)
  }

  /** Rows for which the condition is TRUE, ordered with nulls lowest and ties in table order, the
      window cut out, the listed columns kept. */
  function Execute(q: Query, params: seq<Value>, table: seq<Row>): seq<Row> {
    var ordered := Sort(Selected(table, params, q.condition), Ordering.OrderLeq(q.order));
    ColumnsOfEach(Window(ordered, q.limit, q.offset), q.columns)
  }

  /** Every column the query names is one of these. */
  predicate QueryKnown(q: Query, columns: set<string>) {
    && (q.condition.Some? ==> CondKnown(q.condition.value, columns))
    && (forall n :: n in q.columns ==> n in columns) && (forall s :: s in q.order ==> s.field in columns)
  }

  /** A query on a table with these columns, which refuses names of others. */
  function Answered(types: Schema, q: Query, params: seq<Value>, table: seq<Row>): Option<seq<Row>> {
    if QueryKnown(q, types.Keys) then Some(Execute(q, params, table)) else None
  }

  // ----- tokens of the clauses -----

  function CommaTokens(parts: seq<seq<Token>>): seq<Token>
    requires parts != []
  {
    if |parts| == 1 then parts[0] else parts[0] + ([Punct(',')] + CommaTokens(parts[1..]))
  }

  function NameParts(names: seq<string>): (r: seq<seq<Token>>)
    ensures |r| == |names| && forall i :: 0 <= i < |names| ==> r[i] == [Ident(names[i])]
  {
    seq(|names|, i requires 0 <= i < |names| => [Ident(names[i])])
  }

  function Direction(term: SortTerm): Token {
    Keyword(if term.descending then "DESC" else "ASC")
  }

  function SortParts(sort: seq<SortTerm>): (r: seq<seq<Token>>)
    ensures |r| == |sort| && forall i :: 0 <= i < |sort| ==> r[i] == [Ident(sort[i].field), Direction(sort[i])]
  {
    seq(|sort|, i requires 0 <= i < |sort| => [Ident(sort[i].field), Direction(sort[i])])
  }

  lemma {:induction false} CommaAppend(parts: seq<seq<Token>>, last: seq<Token>)
    requires parts != []
    ensures CommaTokens(parts + [last]) == CommaTokens(parts) + ([Punct(',')] + last)
  {
    assert (parts + [last])[1..] == parts[1..] + [last];
    if |parts| > 1 {
      CommaAppend(parts[1..], last);
      AppendTwice([Punct(',')], CommaTokens(parts[1..]), [Punct(',')] + last);
      AppendTwice(parts[0], [Punct(',')] + CommaTokens(parts[1..]), [Punct(',')] + last);
    } else {
      assert parts[1..] + [last] == [last];
    }
  }

  lemma {:induction false} ListTokens(ps: seq<Phrase>, parts: seq<seq<Token>>)
    requires |ps| == |parts| > 0 && forall i :: 0 <= i < |ps| ==> Tokens(ps[i]) == parts[i]
    ensures Tokens(ListPhrase(ps)) == CommaTokens(parts)
  {
    if |ps| > 1 {
      var n := |ps| - 1;
      var before := ListPhrase(ps[..n]);
      ListTokens(ps[..n], parts[..n]);
      TTokens(Punct(','));
      AppendTokens(before, T(Punct(',')));
      ThenTokens(Append(before, T(Punct(','))), Punct(','));
      AppendTokens(Sp(Append(before, T(Punct(',')))), ps[n]);
      AppendTwice(Tokens(before), [Punct(',')], parts[n]);
      CommaAppend(parts[..n], parts[n]);
      assert parts[..n] + [parts[n]] == parts;
    }
  }

  /** A comma list of aligned, value-free phrases is one. */
  lemma {:induction false} ListAligned(ps: seq<Phrase>, n: nat)
    requires ps != [] && forall i :: 0 <= i < |ps| ==> Aligned(ps[i], n, 0)
    ensures Aligned(ListPhrase(ps), n, 0)
  {
    if |ps| > 1 {
      var before := ps[..|ps| - 1];
      ListAligned(before, n);
      TokenAligned(Punct(','), n);
      TTokens(Punct(','));
      AppendAligned(ListPhrase(before), T(Punct(',')), n, 0, 0);
      ThenAligned(Append(ListPhrase(before), T(Punct(','))), Punct(','), n, 0);
      ThenTokens(Append(ListPhrase(before), T(Punct(','))), Punct(','));
      AppendAligned(Sp(Append(ListPhrase(before), T(Punct(',')))), ps[|ps| - 1], n, 0, 0);
    }
  }

  lemma NamesReads(names: seq<string>, n: nat)
    requires names != []
    ensures Tokens(ListPhrase(IdentPhrases(names))) == CommaTokens(NameParts(names))
    ensures Aligned(ListPhrase(IdentPhrases(names)), n, 0)
  {
    forall i | 0 <= i < |names|
      ensures Aligned(IdentPhrases(names)[i], n, 0) && Tokens(IdentPhrases(names)[i]) == NameParts(names)[i]
    {
      TTokens(Ident(names[i]));
      TokenAligned(Ident(names[i]), n);
    }
    ListTokens(IdentPhrases(names), NameParts(names));
    ListAligned(IdentPhrases(names), n);
  }

  lemma SortPhraseAligned(term: SortTerm, n: nat)
    ensures Tokens(SortPhrase(term)) == [Ident(term.field), Direction(term)]
    ensures Aligned(SortPhrase(term), n, 0)
  {
    TTokens(Ident(term.field));
    TokenAligned(Ident(term.field), n);
    ThenTokens(T(Ident(term.field)), Direction(term));
    ThenAligned(T(Ident(term.field)), Direction(term), n, 0);
  }

  lemma SortsReads(sort: seq<SortTerm>, n: nat)
    requires sort != []
    ensures Tokens(ListPhrase(SortPhrases(sort))) == CommaTokens(SortParts(sort))
    ensures Aligned(ListPhrase(SortPhrases(sort)), n, 0)
  {
    forall i | 0 <= i < |sort|
      ensures Aligned(SortPhrases(sort)[i], n, 0) && Tokens(SortPhrases(sort)[i]) == SortParts(sort)[i]
    {
      SortPhraseAligned(sort[i], n);
    }
    ListTokens(SortPhrases(sort), SortParts(sort));
    ListAligned(SortPhrases(sort), n);
  }

  function WhereTokens(filters: seq<Pred>, n: nat): seq<Token> {
    if filters == [] then [] else [Keyword("WHERE")] + Tokens(JoinedPhrase(filters, "AND", n))
  }

  function OrderTokens(sort: seq<SortTerm>): seq<Token> {
    if sort == [] then [] else [Keyword("ORDER"), Keyword("BY")] + CommaTokens(SortParts(sort))
  }

  function LimitTokens(d: Dialect, limit: Option<nat>, offset: nat): seq<Token> {
    if limit.None? && offset == 0 then []
    else
      var l := if offset == 0 then limit else EffectiveLimit(d, limit);
      [Keyword("LIMIT")] + (if l.None? then [Punct('-'), Number(1)] else [Number(l.value)])
      + if offset == 0 then [] else [Keyword("OFFSET"), Number(offset)]
  }

  lemma WherePhraseReads(filters: seq<Pred>, n: nat)
    requires filters != []
    ensures Tokens(WherePhrase(filters, n).value) == WhereTokens(filters, n)
    ensures Aligned(WherePhrase(filters, n).value, n, |ValuesIn(filters)|)
  {
    var joined := JoinedPhrase(filters, "AND", n);
    JoinedAligned(filters, "AND", n);
    TTokens(Keyword("WHERE"));
    TokenAligned(Keyword("WHERE"), n);
    ThenAligned(T(Keyword("WHERE")), Keyword("WHERE"), n, 0);
    ThenTokens(T(Keyword("WHERE")), Keyword("WHERE"));
    AppendTokens(Sp(T(Keyword("WHERE"))), joined);
    AppendAligned(Sp(T(Keyword("WHERE"))), joined, n, 0, |ValuesIn(filters)|);
  }

  lemma OrderPhraseReads(sort: seq<SortTerm>, n: nat)
    requires sort != []
    ensures Tokens(OrderPhrase(sort).value) == OrderTokens(sort)
    ensures Aligned(OrderPhrase(sort).value, n, 0)
  {
    var open := Then(T(Keyword("ORDER")), Keyword("BY"));
    TTokens(Keyword("ORDER"));
    TokenAligned(Keyword("ORDER"), n);
    ThenTokens(T(Keyword("ORDER")), Keyword("BY"));
    ThenAligned(T(Keyword("ORDER")), Keyword("BY"), n, 0);
    ThenTokens(open, Keyword("BY"));
    ThenAligned(open, Keyword("BY"), n, 0);
    SortsReads(sort, n);
    AppendTokens(Sp(open), ListPhrase(SortPhrases(sort)));
    AppendAligned(Sp(open), ListPhrase(SortPhrases(sort)), n, 0, 0);
  }

  lemma LimitClauseReads(limit: Option<nat>, n: nat)
    ensures Tokens(LimitClause(limit)) ==
      [Keyword("LIMIT")] + if limit.None? then [Punct('-'), Number(1)] else [Number(limit.value)]
    ensures Aligned(LimitClause(limit), n, 0)
  {
    TTokens(Keyword("LIMIT"));
    TokenAligned(Keyword("LIMIT"), n);
    if limit.None? {
      ThenTokens(T(Keyword("LIMIT")), Punct('-'));
      ThenAligned(T(Keyword("LIMIT")), Punct('-'), n, 0);
      TTokens(Number(1));
      TokenAligned(Number(1), n);
      AppendTokens(Then(T(Keyword("LIMIT")), Punct('-')), T(Number(1)));
      AppendAligned(Then(T(Keyword("LIMIT")), Punct('-')), T(Number(1)), n, 0, 0);
    } else {
      ThenTokens(T(Keyword("LIMIT")), Number(limit.value));
      ThenAligned(T(Keyword("LIMIT")), Number(limit.value), n, 0);
    }
  }

  lemma LimitPhraseReads(d: Dialect, limit: Option<nat>, offset: nat, n: nat)
    requires LimitPhrase(d, limit, offset).Some?
    ensures Tokens(LimitPhrase(d, limit, offset).value) == LimitTokens(d, limit, offset)
    ensures Aligned(LimitPhrase(d, limit, offset).value, n, 0)
  {
    var l := if offset == 0 then limit else EffectiveLimit(d, limit);
    LimitClauseReads(l, n);
    ThenTokens(LimitClause(l), Keyword("OFFSET"));
    ThenAligned(LimitClause(l), Keyword("OFFSET"), n, 0);
    ThenTokens(Then(LimitClause(l), Keyword("OFFSET")), Number(offset));
    ThenAligned(Then(LimitClause(l), Keyword("OFFSET")), Number(offset), n, 0);
  }

  lemma WithReads(before: Phrase, clause: Option<Phrase>, ts: seq<Token>, n: nat, count: nat, more: nat)
    requires Aligned(before, n, count)
    requires clause.Some? ==> Tokens(clause.value) == ts && Aligned(clause.value, n + count, more)
    requires clause.None? ==> ts == [] && more == 0
    ensures Tokens(With(before, clause)) == Tokens(before) + ts
    ensures Aligned(With(before, clause), n, count + more)
  {
    if clause.Some? {
      ThenTokens(before, Keyword("AND"));
      ThenAligned(before, Keyword("AND"), n, count);
      AppendTokens(Sp(before), clause.value);
      AppendAligned(Sp(before), clause.value, n, count, more);
    }
  }

  function HeadTokens(table: string, columns: seq<string>): seq<Token> {
    [Keyword("SELECT")] + (if columns == [] then [Punct('*')] else CommaTokens(NameParts(columns))) + [Keyword("FROM"), Ident(table)]
  }

  lemma HeadReads(table: string, columns: seq<string>)
    ensures Tokens(SelectHead(table, columns)) == HeadTokens(table, columns)
    ensures Aligned(SelectHead(table, columns), 0, 0)
  {
    var open, list := Sp(T(Keyword("SELECT"))), ColumnsPhrase(columns);
    TTokens(Keyword("SELECT"));
    TokenAligned(Keyword("SELECT"), 0);
    ThenTokens(T(Keyword("SELECT")), Keyword("SELECT"));
    ThenAligned(T(Keyword("SELECT")), Keyword("SELECT"), 0, 0);
    if columns == [] {
      TTokens(Punct('*'));
      TokenAligned(Punct('*'), 0);
    } else {
      NamesReads(columns, 0);
    }
    AppendTokens(open, list);
    AppendAligned(open, list, 0, 0, 0);
    ThenTokens(Append(open, list), Keyword("FROM"));
    ThenAligned(Append(open, list), Keyword("FROM"), 0, 0);
    ThenTokens(Then(Append(open, list), Keyword("FROM")), Ident(table));
    ThenAligned(Then(Append(open, list), Keyword("FROM")), Ident(table), 0, 0);
  }

  /** The whole statement: its tokens, and a placeholder for each bound value, in order. */
  lemma SelectReads(d: Dialect, schema: ModelSchema, q: Select)
    ensures Tokens(SelectPhrase(d, schema, q)) ==
      HeadTokens(schema.name, ProjectedColumns(schema, q.projection)) + WhereTokens(q.filters, 0)
      + OrderTokens(q.sort) + LimitTokens(d, q.limit, q.offset)
    ensures Aligned(SelectPhrase(d, schema, q), 0, |ValuesIn(q.filters)|)
  {
    var head := SelectHead(schema.name, ProjectedColumns(schema, q.projection));
    HeadReads(schema.name, ProjectedColumns(schema, q.projection));
    ThenWhere(head, q.filters, 0);
    var filtered := With(head, WherePhrase(q.filters, 0));
    ThenOrder(filtered, q.sort, |ValuesIn(q.filters)|);
    ThenLimit(d, With(filtered, OrderPhrase(q.sort)), q.limit, q.offset, |ValuesIn(q.filters)|);
  }

  lemma ThenWhere(before: Phrase, filters: seq<Pred>, n: nat)
    requires Aligned(before, 0, n)
    ensures Tokens(With(before, WherePhrase(filters, n))) == Tokens(before) + WhereTokens(filters, n)
    ensures Aligned(With(before, WherePhrase(filters, n)), 0, n + |ValuesIn(filters)|)
  {
    if filters != [] {
      WherePhraseReads(filters, n);
    }
    WithReads(before, WherePhrase(filters, n), WhereTokens(filters, n), 0, n, |ValuesIn(filters)|);
  }

  lemma ThenOrder(before: Phrase, sort: seq<SortTerm>, count: nat)
    requires Aligned(before, 0, count)
    ensures Tokens(With(before, OrderPhrase(sort))) == Tokens(before) + OrderTokens(sort)
    ensures Aligned(With(before, OrderPhrase(sort)), 0, count)
  {
    if sort != [] {
      OrderPhraseReads(sort, count);
    }
    WithReads(before, OrderPhrase(sort), OrderTokens(sort), 0, count, 0);
  }

  lemma ThenLimit(d: Dialect, before: Phrase, limit: Option<nat>, offset: nat, count: nat)
    requires Aligned(before, 0, count)
    ensures Tokens(With(before, LimitPhrase(d, limit, offset))) == Tokens(before) + LimitTokens(d, limit, offset)
    ensures Aligned(With(before, LimitPhrase(d, limit, offset)), 0, count)
  {
    if LimitPhrase(d, limit, offset).Some? {
      LimitPhraseReads(d, limit, offset, count);
    }
    WithReads(before, LimitPhrase(d, limit, offset), LimitTokens(d, limit, offset), 0, count, 0);
  }

  // ----- reading the clauses back -----

  lemma {:induction false} NamesParse(names: seq<string>, rest: seq<Token>)
    requires names != [] && (rest == [] || rest[0] != Punct(','))
    ensures ParseNames(CommaTokens(NameParts(names)) + rest) == Some((names, rest))
  {
    var first := [Ident(names[0])];
    if |names| == 1 {
      assert (first + rest)[1..] == rest;
      assert names == [names[0]];
    } else {
      var more := CommaTokens(NameParts(names[1..]));
      assert NameParts(names)[1..] == NameParts(names[1..]);
      NamesParse(names[1..], rest);
      AppendTwice(first, [Punct(',')] + more, rest);
      AppendTwice([Punct(',')], more, rest);
      assert (first + ([Punct(',')] + (more + rest)))[2..] == more + rest;
      assert names == [names[0]] + names[1..];
    }
  }

  lemma LastSort(term: SortTerm, rest: seq<Token>)
    requires rest == [] || rest[0] != Punct(',')
    ensures ParseSorts([Ident(term.field), Direction(term)] + rest) == Some(([term], rest))
  {
    assert ([Ident(term.field), Direction(term)] + rest)[2..] == rest;
  }

  lemma MoreSorts(term: SortTerm, ts: seq<Token>, sort: seq<SortTerm>, rest: seq<Token>)
    requires ParseSorts(ts) == Some((sort, rest))
    ensures ParseSorts([Ident(term.field), Direction(term)] + ([Punct(',')] + ts)) == Some(([term] + sort, rest))
  {
    assert ([Ident(term.field), Direction(term)] + ([Punct(',')] + ts))[3..] == ts;
  }

  lemma {:induction false} SortsParse(sort: seq<SortTerm>, rest: seq<Token>)
    requires sort != [] && (rest == [] || rest[0] != Punct(','))
    ensures ParseSorts(CommaTokens(SortParts(sort)) + rest) == Some((sort, rest))
  {
    if |sort| == 1 {
      LastSort(sort[0], rest);
      assert sort == [sort[0]];
    } else {
      var more := CommaTokens(SortParts(sort[1..]));
      assert SortParts(sort)[1..] == SortParts(sort[1..]);
      SortsParse(sort[1..], rest);
      MoreSorts(sort[0], more + rest, sort[1..], rest);
      AppendTwice(SortParts(sort)[0], [Punct(',')] + more, rest);
      AppendTwice([Punct(',')], more, rest);
      assert sort == [sort[0]] + sort[1..];
    }
  }

  lemma LimitParses(d: Dialect, limit: Option<nat>, offset: nat)
    ensures ParseLimit(LimitTokens(d, limit, offset)) ==
      Some((if offset == 0 then limit else EffectiveLimit(d, limit), offset))
  {
    var ts := LimitTokens(d, limit, offset);
    var tail := if offset == 0 then [] else [Keyword("OFFSET"), Number(offset)];
    if ts != [] {
      assert ts[1].Number? ==> ts[2..] == tail;
      assert !ts[1].Number? ==> ts[3..] == tail;
    }
  }

  /** The condition the filters compile to; none without filters. */
  function WhereCond(filters: seq<Pred>, n: nat): Option<Cond>
    requires forall p :: p in filters ==> Grounded(p)
  {
    if filters == [] then None else Some(JoinedCond(filters, true, n))
  }

  lemma WhereParses(filters: seq<Pred>, n: nat, rest: seq<Token>)
    requires (forall p :: p in filters ==> Grounded(p)) && Stops(rest) && (rest == [] || rest[0] != Keyword("WHERE"))
    ensures ParseWhere(WhereTokens(filters, n) + rest) == Some((WhereCond(filters, n), rest))
  {
    if filters == [] {
      assert WhereTokens(filters, n) + rest == rest;
    } else {
      JoinedParses(filters, true, n, rest);
      AppendTwice([Keyword("WHERE")], Tokens(JoinedPhrase(filters, "AND", n)), rest);
      WhereThen(Tokens(JoinedPhrase(filters, "AND", n)) + rest, JoinedCond(filters, true, n), rest);
    }
  }

  lemma WhereThen(ts: seq<Token>, c: Cond, rest: seq<Token>)
    requires ParseOr(ts) == Some((c, rest))
    ensures ParseWhere([Keyword("WHERE")] + ts) == Some((Some(c), rest))
  {
    assert ([Keyword("WHERE")] + ts)[1..] == ts;
  }

  lemma OrderParses(sort: seq<SortTerm>, rest: seq<Token>)
    requires rest == [] || rest[0] == Keyword("LIMIT")
    ensures ParseOrder(OrderTokens(sort) + rest) == Some((sort, rest))
  {
    if sort == [] {
      assert OrderTokens(sort) + rest == rest;
    } else {
      SortsParse(sort, rest);
      OrderByThen(CommaTokens(SortParts(sort)) + rest);
      AppendTwice([Keyword("ORDER"), Keyword("BY")], CommaTokens(SortParts(sort)), rest);
    }
  }

  lemma OrderByThen(ts: seq<Token>)
    ensures ParseOrder([Keyword("ORDER"), Keyword("BY")] + ts) == ParseSorts(ts)
  {
    assert ([Keyword("ORDER"), Keyword("BY")] + ts)[2..] == ts;
  }

  lemma HeadParses(table: string, columns: seq<string>, rest: seq<Token>)
    ensures ParseSelect(HeadTokens(table, columns) + rest) == ParseClauses(columns, table, rest)
  {
    var from := [Keyword("FROM"), Ident(table)] + rest;
    var list := if columns == [] then [Punct('*')] else CommaTokens(NameParts(columns));
    assert from[2..] == rest;
    AppendTwice([Keyword("SELECT")] + list, [Keyword("FROM"), Ident(table)], rest);
    AppendTwice([Keyword("SELECT")], list, from);
    assert ([Keyword("SELECT")] + (list + from))[1..] == list + from;
    ColumnsParse(columns, from);
  }

  lemma ColumnsParse(columns: seq<string>, rest: seq<Token>)
    requires rest == [] || rest[0] != Punct(',')
    ensures ParseColumns((if columns == [] then [Punct('*')] else CommaTokens(NameParts(columns))) + rest) == Some((columns, rest))
  {
    if columns == [] {
      assert ([Punct('*')] + rest)[1..] == rest;
    } else {
      NamesParse(columns, rest);
    }
  }

  /** What the statement text reads back as. */
  function QueryOf(d: Dialect, schema: ModelSchema, q: Select): Query
    requires forall p :: p in q.filters ==> Grounded(p)
  {
    Query(ProjectedColumns(schema, q.projection), schema.name, WhereCond(q.filters, 0), q.sort,
          if q.offset == 0 then q.limit else EffectiveLimit(d, q.limit), q.offset)
  }

  /** Lexing and parsing the compiled SELECT recovers the query: columns, table, condition, order
      and window. */
  lemma SelectRoundTrip(d: Dialect, schema: ModelSchema, q: Select)
    requires forall p :: p in q.filters ==> Grounded(p)
    ensures ParseSelect(Lex(d, TextOf(d, SelectPhrase(d, schema, q)), 0)) == Some(QueryOf(d, schema, q))
  {
    hide SelectPhrase, HeadTokens, WhereTokens, ParseSelect, ParseWhere, ParseOrder, ParseLimit, Grounded, Spaced, InOrder;
    SelectReads(d, schema, q);
    LexPhrase(d, SelectPhrase(d, schema, q), 0);
    var columns := ProjectedColumns(schema, q.projection);
    var w, o, l := WhereTokens(q.filters, 0), OrderTokens(q.sort), LimitTokens(d, q.limit, q.offset);
    AppendTwice(HeadTokens(schema.name, columns) + w, o, l);
    AppendTwice(HeadTokens(schema.name, columns), w, o + l);
    HeadParses(schema.name, columns, w + (o + l));
    LimitParses(d, q.limit, q.offset);
    OrderParses(q.sort, l);
    WhereParses(q.filters, 0, o + l);
  }

  lemma WhereFails(filters: seq<Pred>, n: nat, rest: seq<Token>)
    requires exists p :: p in filters && !Grounded(p)
    ensures ParseWhere(WhereTokens(filters, n) + rest).None?
  {
    var ts := Tokens(JoinedPhrase(filters, "AND", n)) + rest;
    UngroundedJoinFails(filters, true, n, rest);
    AppendTwice([Keyword("WHERE")], Tokens(JoinedPhrase(filters, "AND", n)), rest);
    assert ([Keyword("WHERE")] + ts)[1..] == ts;
  }

  /** The compiled SELECT is one if and only if no filter holds an and/or without operands. */
  lemma SelectParsesExactly(d: Dialect, schema: ModelSchema, q: Select)
    ensures ParseSelect(Lex(d, TextOf(d, SelectPhrase(d, schema, q)), 0)).Some? <==> forall p :: p in q.filters ==> Grounded(p)
  {
    hide SelectPhrase, HeadTokens, WhereTokens, OrderTokens, LimitTokens, ParseSelect, ParseWhere, Grounded;
    if forall p :: p in q.filters ==> Grounded(p) {
      SelectRoundTrip(d, schema, q);
    } else {
      SelectReads(d, schema, q);
      LexPhrase(d, SelectPhrase(d, schema, q), 0);
      var columns := ProjectedColumns(schema, q.projection);
      var w, o, l := WhereTokens(q.filters, 0), OrderTokens(q.sort), LimitTokens(d, q.limit, q.offset);
      AppendTwice(HeadTokens(schema.name, columns) + w, o, l);
      AppendTwice(HeadTokens(schema.name, columns), w, o + l);
      HeadParses(schema.name, columns, w + (o + l));
      WhereFails(q.filters, 0, o + l);
    }
  }

  // ----- what executing a query returns -----

  lemma {:induction false} SelectedAre(rows: seq<Row>, params: seq<Value>, condition: Option<Cond>)
    ensures forall r ::
      multiset(Selected(rows, params, condition))[r] == (if condition.None? || Eval(r, params, condition.value).True? then multiset(rows)[r] else 0)
  {
    if rows != [] {
      SelectedAre(rows[1..], params, condition);
      assert rows == [rows[0]] + rows[1..];
    }
  }

  lemma {:induction false} ColumnsAt(rows: seq<Row>, names: seq<string>, i: nat)
    requires i < |rows|
    ensures i < |ColumnsOfEach(rows, names)| == |rows|
    ensures if names == [] then ColumnsOfEach(rows, names)[i] == rows[i]
            else Projects(ColumnsOfEach(rows, names)[i], rows[i], set n | n in names)
  {
    ColumnsCount(rows, names);
    if i > 0 && names != [] {
      ColumnsAt(rows[1..], names, i - 1);
    }
  }

  lemma {:induction false} ColumnsCount(rows: seq<Row>, names: seq<string>)
    ensures |ColumnsOfEach(rows, names)| == |rows|
  {
    if rows != [] && names != [] {
      ColumnsCount(rows[1..], names);
    }
  }

  /** The rows for which the condition is TRUE, in the stable order of the list; of them the window; of each
      exactly the listed columns, or all of them. */
  lemma ExecuteReturns(q: Query, params: seq<Value>, table: seq<Row>) returns (ordered: seq<Row>)
    ensures forall r ::
      multiset(ordered)[r] == (if q.condition.None? || Eval(r, params, q.condition.value).True? then multiset(table)[r] else 0)
    ensures SortedBy(ordered, Ordering.OrderLeq(q.order))
    ensures StableRearrangement(Selected(table, params, q.condition), ordered, Ordering.OrderLeq(q.order))
    ensures
      var out := Execute(q, params, table);
      var left := if q.offset <= |ordered| then |ordered| - q.offset else 0;
      && |out| == (if q.limit.Some? && q.limit.value < left then q.limit.value else left)
      && forall i :: 0 <= i < |out| ==>
           var stored := ordered[q.offset + i];
           if q.columns == [] then out[i] == stored else Projects(out[i], stored, set n | n in q.columns)
  {
    hide Projects, Selected, StableRearrangement, SortedBy, ColumnsOfEach, Ordering.OrderLeq, Sort, Eval;
    var chosen := Selected(table, params, q.condition);
    ordered := Sort(chosen, Ordering.OrderLeq(q.order));
    SelectedAre(table, params, q.condition);
    Ordering.OrderPreorder(q.order);
    SortCorrect(chosen, Ordering.OrderLeq(q.order));
    var page := Window(ordered, q.limit, q.offset);
    ColumnsCount(page, q.columns);
    forall i | 0 <= i < |page|
      ensures var stored := ordered[q.offset + i];
              if q.columns == [] then Execute(q, params, table)[i] == stored
              else Projects(Execute(q, params, table)[i], stored, set n | n in q.columns)
    {
      ColumnsAt(page, q.columns, i);
    }
  }

  // ----- executing what was read -----

  /** The columns selected and ordered by are among these. */
  predicate OutputKnown(schema: ModelSchema, q: Select, columns: set<string>) {
    (forall n :: n in ProjectedColumns(schema, q.projection) ==> n in columns) && forall s :: s in q.sort ==> s.field in columns
  }

  predicate SelectKnown(schema: ModelSchema, q: Select, columns: set<string>) {
    OutputKnown(schema, q, columns) && forall p :: p in q.filters ==> FieldsKnown(p, columns)
  }

  lemma WhereNamesTheFields(filters: seq<Pred>, n: nat, columns: set<string>)
    requires forall p :: p in filters ==> Grounded(p)
    ensures (WhereCond(filters, n).Some? ==> CondKnown(WhereCond(filters, n).value, columns)) <==>
      forall p :: p in filters ==> FieldsKnown(p, columns)
  {
    if filters != [] {
      JoinedNamesTheFields(filters, true, n, columns);
    }
  }

  lemma {:induction false} TypedFieldsKnown(p: Pred, types: Schema)
    requires Typed(p, types)
    ensures FieldsKnown(p, types.Keys)
    decreases p
  {
    match p
    case Bool(_, operands) =>
      forall o | o in operands ensures FieldsKnown(o, types.Keys) {
        TypedFieldsKnown(o, types);
      }
    case Not(operand) => TypedFieldsKnown(operand, types);
    case _ =>
  }

  /** A condition of typed filters names columns of the table only. */
  lemma SuitedFiltersKnown(filters: seq<Pred>, n: nat, types: Schema, table: seq<Row>)
    requires Suits(filters, types, table)
    ensures forall p :: p in filters ==> Grounded(p) && FieldsKnown(p, types.Keys)
    ensures WhereCond(filters, n).Some? ==> CondKnown(WhereCond(filters, n).value, types.Keys)
  {
    SuitsGrounded(filters, types, table);
    forall p | p in filters ensures FieldsKnown(p, types.Keys) {
      TypedFieldsKnown(p, types);
    }
    WhereNamesTheFields(filters, n, types.Keys);
  }

  /** The filters are typed for the table, safe on each of its rows, and the rows conform. */
  ghost predicate Suits(filters: seq<Pred>, types: Schema, table: seq<Row>) {
    && (forall p :: p in filters ==> Typed(p, types))
    && (forall r :: r in table ==> Conforms(r, types))
    && (forall r, p :: r in table && p in filters ==> Safe(p, r, true))
  }

  lemma SuitsGrounded(filters: seq<Pred>, types: Schema, table: seq<Row>)
    requires Suits(filters, types, table)
    ensures forall p :: p in filters ==> Grounded(p)
  {
    forall p | p in filters ensures Grounded(p) {
      TypedIsGrounded(p, types);
    }
  }

  /** A row is chosen by the compiled condition exactly when the filters match it. */
  lemma ChosenIsMatched(row: Row, params: seq<Value>, filters: seq<Pred>, n: nat, types: Schema)
    requires Suits(filters, types, [row]) && BoundAt(params, n, ValuesIn(filters))
    ensures (forall p :: p in filters ==> Grounded(p)) && MatchesAll(row, filters).Ok?
    ensures Chosen(row, params, WhereCond(filters, n)) <==> MatchesAll(row, filters) == Ok(true)
  {
    SuitsGrounded(filters, types, [row]);
    assert row in [row];
    if filters != [] {
      JoinedAgrees(row, params, filters, true, n, types, true);
      MatchesAllIsConjunction(row, filters, types);
    }
  }

  lemma {:induction false} SelectedIsFiltered(rows: seq<Row>, filters: seq<Pred>, types: Schema)
    requires Suits(filters, types, rows)
    ensures forall p :: p in filters ==> Grounded(p)
    ensures Selected(rows, ValuesIn(filters), WhereCond(filters, 0)) == Filtered(rows, filters)
  {
    SuitsGrounded(filters, types, rows);
    if rows != [] {
      SelectedIsFiltered(rows[1..], filters, types);
      assert rows[0] in rows;
      assert ValuesIn(filters)[0..0 + |ValuesIn(filters)|] == ValuesIn(filters);
      ChosenIsMatched(rows[0], ValuesIn(filters), filters, 0, types);
    }
  }

  lemma {:induction false} ProjectionAgrees(rows: seq<Row>, projection: seq<string>, schema: ModelSchema)
    requires schema.primaryKey.Some?
    ensures ColumnsOfEach(rows, ProjectedColumns(schema, projection)) == KeptOfEach(rows, projection, schema.primaryKey.value)
  {
    if rows != [] {
      var columns := ProjectedColumns(schema, projection);
      ProjectionAgrees(rows[1..], projection, schema);
      if projection != [] {
        assert (set n | n in columns) == (set n | n in projection) + {schema.primaryKey.value};
      } else {
        assert rows == [rows[0]] + rows[1..];
      }
    }
  }

  /** End to end: for every query, table and dialect, the compiled text executed as SQL returns
      exactly the rows, in exactly the order, that the reference engine returns; it is refused if and only
      if a projected or ordering column is none of the table's, which the reference engine reads as null. */
  lemma SelectPreservesMeaning(d: Dialect, schema: ModelSchema, types: Schema, q: Select, table: seq<Row>)
    requires schema.primaryKey.Some? && |table| <= MAX_LIMIT
    requires Suits(q.filters, types, table)
    ensures
      var query := ParseSelect(Lex(d, TextOf(d, SelectPhrase(d, schema, q)), 0));
      && query.Some? && query.value.table == schema.name
      && Answered(types, query.value, ValuesIn(q.filters), table) ==
           if OutputKnown(schema, q, types.Keys) then Some(ReferenceSelect(q, schema.primaryKey.value, table)) else None
  {
    hide SelectPhrase, ParseSelect, Suits, Grounded, CondKnown, FieldsKnown, Execute, ReferenceSelect, OutputKnown;
    SuitedFiltersKnown(q.filters, 0, types, table);
    SelectRoundTrip(d, schema, q);
    KnownExactly(d, schema, q, types.Keys);
    ExecutedIsReference(d, schema, types, q, table);
  }

  lemma ExecutedIsReference(d: Dialect, schema: ModelSchema, types: Schema, q: Select, table: seq<Row>)
    requires schema.primaryKey.Some? && |table| <= MAX_LIMIT
    requires Suits(q.filters, types, table)
    ensures forall p :: p in q.filters ==> Grounded(p)
    ensures Execute(QueryOf(d, schema, q), ValuesIn(q.filters), table) == ReferenceSelect(q, schema.primaryKey.value, table)
  {
    hide Suits, Selected, Filtered, Grounded;
    SelectedIsFiltered(table, q.filters, types);
    FilteredSize(table, q.filters);
    Ordering.OrderPreorder(q.sort);
    var kept := Filtered(table, q.filters);
    SortCorrect(kept, Ordering.OrderLeq(q.sort));
    var ordered := Sort(kept, Ordering.OrderLeq(q.sort));
    assert |multiset(ordered)| == |ordered| && |multiset(kept)| == |kept|;
    var query := QueryOf(d, schema, q);
    WindowAgrees(d, ordered, q.limit, q.offset);
    ProjectionAgrees(Window(ordered, query.limit, query.offset), q.projection, schema);
  }

  /** The reading back knows the columns the query names. */
  lemma KnownExactly(d: Dialect, schema: ModelSchema, q: Select, columns: set<string>)
    requires forall p :: p in q.filters ==> Grounded(p)
    ensures QueryKnown(QueryOf(d, schema, q), columns) <==> SelectKnown(schema, q, columns)
  {
    hide CondKnown, FieldsKnown, ProjectedColumns, WhereCond;
    WhereNamesTheFields(q.filters, 0, columns);
  }

  lemma WindowAgrees<T>(d: Dialect, rows: seq<T>, limit: Option<nat>, offset: nat)
    requires |rows| <= MAX_LIMIT
    ensures
      var rest := if offset <= |rows| then rows[offset..] else [];
      Window(rows, if offset == 0 then limit else EffectiveLimit(d, limit), offset) ==
        if limit.Some? && limit.value <= |rest| then rest[..limit.value] else rest
  {
  }
}
