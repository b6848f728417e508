/**
  The texts the compiler writes, spelled out word by word for each dialect: quoting, placeholders, every kind of
  predicate, every clause, and every statement, with the errors that take their place.
 */
module SqlSpelling {
  import opened Values
  import opened Predicates
  import opened SqlText
  import opened SqlCompiler
  import opened SqlStatements
  import opened Selects
  import opened SqlMutations
  import opened SqlCounting
  import opened SqlInserts
  import Tables

  /** A quoted name. */
  function Q(d: Dialect, name: string): string {
    Delimit(name, d.QuoteChar())
  }

  /** The placeholder of the value at this index. */
  function P(d: Dialect, k: nat): string {
    Placeholder(d.Style(), k + 1)
  }

  // ----- names, numbers and placeholders -----

  /** MySQL quotes with backticks and the others with double quotes; SQLite has question marks, PostgreSQL
      numbers its placeholders from one, and MySQL has format directives. */
  lemma DialectsSpell(name: string, k: nat)
    ensures Q(Sqlite, name) == "\"" + DoubleQuotes(name, '"') + "\"" == Q(Postgres, name)
    ensures Q(Mysql, name) == "`" + DoubleQuotes(name, '`') + "`"
    ensures P(Sqlite, k) == "?" && P(Postgres, k) == "$" + Decimal(k + 1) && P(Mysql, k) == "%s"
  {
  }

  lemma {:induction false} QuotesDouble(s: string, t: string, q: char, c: char)
    requires c != q
    ensures DoubleQuotes(s + t, q) == DoubleQuotes(s, q) + DoubleQuotes(t, q)
    ensures DoubleQuotes([q], q) == [q, q] && DoubleQuotes([c], q) == [c] && DoubleQuotes([], q) == []
  {
    if s == [] {
      assert s + t == t;
    } else {
      assert (s + t)[1..] == s[1..] + t;
      QuotesDouble(s[1..], t, q, c);
    }
    assert [q][1..] == [] && [c][1..] == [];
  }

  lemma DecimalDigits(n: nat)
    ensures n < 10 ==> Decimal(n) == ["0123456789"[n]]
    ensures n >= 10 ==> Decimal(n) == Decimal(n / 10) + Decimal(n % 10)
  {
  }

  lemma SmallNumbers()
    ensures Decimal(0) == "0" && Decimal(1) == "1"
  {
    DecimalDigits(0);
    DecimalDigits(1);
  }

  // ----- predicates -----

  function SymbolText(op: CompareOp): string {
    match op
    case Eq => "="
    case Ne => "<>"
    case Lt => "<"
    case Le => "<="
    case Gt => ">"
    case Ge => ">="
  }

  lemma ComparisonText(d: Dialect, op: CompareOp, f: FieldRef, v: Value, n: nat)
    ensures
      TextOf(d, PredPhrase(Compare(op, f, Literal(v)), n)) ==
        if op.Eq? && v.Null? then Q(d, f.field) + " " + "IS" + " " + "NULL"
        else if op.Ne? && v.Null? then Q(d, f.field) + " " + "IS" + " " + "NOT" + " " + "NULL"
        else Q(d, f.field) + " " + SymbolText(op) + " " + P(d, n)
    ensures PredValues(Compare(op, f, Literal(v))) == if (op.Eq? || op.Ne?) && v.Null? then [] else [v]
  {
    hide TextOf, Then, Append, Sp, T, Delimit, Placeholder;
  }

  lemma NullTestText(d: Dialect, op: NullOp, f: FieldRef, n: nat)
    ensures TextOf(d, PredPhrase(NullTest(op, f), n)) ==
      Q(d, f.field) + " " + "IS" + (if op.IsNull? then "" else " " + "NOT") + " " + "NULL"
    ensures PredValues(NullTest(op, f)) == []
  {
    hide TextOf, Then, Append, Sp, T, Delimit, Placeholder;
    var front := Q(d, f.field) + " " + "IS";
    assert front + "" == front && front + (" " + "NOT") == front + " " + "NOT";
  }

  lemma PatternText(d: Dialect, op: PatternOp, f: FieldRef, v: string, n: nat)
    ensures TextOf(d, PredPhrase(Pattern(op, f, Literal(Str(v))), n)) ==
      if op.Like? then Q(d, f.field) + " " + "LIKE" + " " + P(d, n)
      else Q(d, f.field) + " " + "LIKE" + " " + P(d, n) + " " + "ESCAPE" + " " + "'\\'"
  {
    BackslashText();
    hide TextOf, Then, Append, Sp, T, Delimit, Placeholder;
  }

  lemma BackslashText()
    ensures Delimit("\\", '\'') == "'\\'"
  {
    QuotesDouble("\\", "", '\'', '\\');
  }

  function PlaceholderList(d: Dialect, n: nat, count: nat): string {
    if count == 0 then "" else if count == 1 then P(d, n) else PlaceholderList(d, n, count - 1) + "," + " " + P(d, n + count - 1)
  }

  lemma {:induction false} BindsText(d: Dialect, n: nat, count: nat)
    requires count > 0
    ensures TextOf(d, BindsPhrase(n, count)) == PlaceholderList(d, n, count)
  {
    hide TextOf, Then, Append, Sp, T, Placeholder;
    if count > 1 {
      BindsText(d, n, count - 1);
    }
  }

  /** Membership in an empty list is a constant truth. */
  lemma EmptyListText(d: Dialect, negated: bool, f: FieldRef, n: nat)
    ensures TextOf(d, PredPhrase(Membership(negated, f, []), n)) == "1" + " " + "=" + " " + if negated then "1" else "0"
  {
    hide TextOf, Then, Append, Sp, T, Decimal;
    SmallNumbers();
  }

  lemma MembershipText(d: Dialect, negated: bool, f: FieldRef, values: seq<Value>, n: nat)
    requires values != []
    ensures TextOf(d, PredPhrase(Membership(negated, f, values), n)) ==
      if negated then Q(d, f.field) + " " + "NOT" + " " + "IN" + " " + "(" + PlaceholderList(d, n, |values|) + ")"
      else Q(d, f.field) + " " + "IN" + " " + "(" + PlaceholderList(d, n, |values|) + ")"
    ensures PredValues(Membership(negated, f, values)) == values
  {
    hide TextOf, Then, Append, Sp, T, Delimit, Placeholder, PlaceholderList, BindsPhrase;
    BindsText(d, n, |values|);
  }

  lemma NegationText(d: Dialect, p: Pred, n: nat)
    ensures TextOf(d, PredPhrase(Not(p), n)) == "(" + "NOT" + " " + TextOf(d, PredPhrase(p, n)) + ")"
  {
    hide TextOf, Then, Append, Sp, T;
  }

  lemma ConnectiveText(d: Dialect, conjunction: bool, ps: seq<Pred>, n: nat)
    ensures TextOf(d, PredPhrase(Bool(conjunction, ps), n)) ==
      if ps == [] then "(" + ")" else "(" + TextOf(d, JoinedPhrase(ps, if conjunction then "AND" else "OR", n)) + ")"
  {
    hide TextOf, Then, Append, Sp, T, JoinedPhrase;
  }

  /** Each operand is numbered after the values of those before it. */
  lemma JoinedText(d: Dialect, ps: seq<Pred>, joiner: string, n: nat)
    requires ps != []
    ensures TextOf(d, JoinedPhrase(ps, joiner, n)) ==
      if |ps| == 1 then TextOf(d, PredPhrase(ps[0], n))
      else TextOf(d, PredPhrase(ps[0], n)) + " " + joiner + " " + TextOf(d, JoinedPhrase(ps[1..], joiner, n + |PredValues(ps[0])|))
  {
    hide TextOf, Then, Append, Sp, T, PredPhrase, PredValues;
  }

  /** What a contains, startswith or endswith filter takes another value for. */
  lemma TextsOfValues(i: int, s: string)
    ensures ToText(Null) == "None" && ToText(Str(s)) == s
    ensures i >= 0 ==> ToText(Int(i)) == Decimal(i)
    ensures i < 0 ==> ToText(Int(i)) == "-" + Decimal(-i)
  {
  }

  /** What cannot be compiled: a document path, a name with a NUL, and, where the name is fine, an unbound
      parameter. */
  lemma LeavesFail(op: CompareOp, pattern: PatternOp, nullOp: NullOp, f: FieldRef, right: Operand, negated: bool, values: seq<Value>)
    ensures
      var named := if f.path != [] || '\0' in f.field then Some(DialectError) else None;
      && Fault(Membership(negated, f, values)) == named && Fault(NullTest(nullOp, f)) == named
      && Fault(Compare(op, f, right)) == Fault(Pattern(pattern, f, right))
           == if named.Some? then named else if right.Param? then Some(QueryError) else None
  {
  }

  /** Of several predicates the first that fails decides. */
  lemma {:induction false} TreesFail(ps: seq<Pred>, p: Pred, conjunction: bool)
    ensures Fault(Not(p)) == Fault(p) && Fault(Bool(conjunction, ps)) == FaultIn(ps)
    ensures FaultIn(ps).None? <==> forall i :: 0 <= i < |ps| ==> Fault(ps[i]).None?
    ensures FaultIn(ps).Some? ==> exists i :: 0 <= i < |ps| && Fault(ps[i]) == FaultIn(ps) && forall k :: 0 <= k < i ==> Fault(ps[k]).None?
  {
    if ps != [] && Fault(ps[0]).None? {
      TreesFail(ps[1..], p, conjunction);
      var rest := ps[1..];
      assert ps == [ps[0]] + rest;
      if FaultIn(ps).Some? {
        var i :| 0 <= i < |rest| && Fault(rest[i]) == FaultIn(ps) && forall k :: 0 <= k < i ==> Fault(rest[k]).None?;
        assert rest[i] == ps[i + 1] && forall k :: 0 < k < i + 1 ==> ps[k] == rest[k - 1];
      }
    }
  }

  // ----- lists and clauses -----

  /** The items with a comma and a space between any two. */
  function CommaList(items: seq<string>): string {
    if items == [] then "" else if |items| == 1 then items[0]
    else CommaList(items[..|items| - 1]) + "," + " " + items[|items| - 1]
  }

  lemma {:induction false} ListText(d: Dialect, ps: seq<Phrase>, items: seq<string>)
    requires |ps| == |items| > 0 && forall i :: 0 <= i < |ps| ==> items[i] == TextOf(d, ps[i])
    ensures TextOf(d, ListPhrase(ps)) == CommaList(items)
    decreases |ps|
  {
    hide TextOf, Append, Sp, T;
    if |ps| > 1 {
      ListText(d, ps[..|ps| - 1], items[..|ps| - 1]);
    }
  }

  function NameList(d: Dialect, names: seq<string>): string {
    CommaList(seq(|names|, i requires 0 <= i < |names| => Q(d, names[i])))
  }

  lemma NamesText(d: Dialect, names: seq<string>)
    requires names != []
    ensures TextOf(d, ListPhrase(IdentPhrases(names))) == NameList(d, names)
  {
    hide TextOf, Then, Append, Sp, T, Delimit, Placeholder, ListPhrase, CommaList;
    ListText(d, IdentPhrases(names), seq(|names|, i requires 0 <= i < |names| => Q(d, names[i])));
  }

  function SortItem(d: Dialect, term: SortTerm): string {
    Q(d, term.field) + " " + if term.descending then "DESC" else "ASC"
  }

  function SortList(d: Dialect, sort: seq<SortTerm>): string {
    CommaList(seq(|sort|, i requires 0 <= i < |sort| => SortItem(d, sort[i])))
  }

  lemma SortItemIs(d: Dialect, term: SortTerm)
    ensures TextOf(d, SortPhrase(term)) == SortItem(d, term)
  {
    hide TextOf, Then, Append, Sp, T, Delimit, Placeholder;
  }

  lemma SortText(d: Dialect, sort: seq<SortTerm>)
    requires sort != []
    ensures TextOf(d, ListPhrase(SortPhrases(sort))) == SortList(d, sort)
  {
    hide TextOf, Then, Append, Sp, T, Delimit, Placeholder, ListPhrase, CommaList, SortItem, SortPhrase;
    var items := seq(|sort|, i requires 0 <= i < |sort| => SortItem(d, sort[i]));
    forall i | 0 <= i < |sort| ensures items[i] == TextOf(d, SortPhrases(sort)[i]) {
      SortItemIs(d, sort[i]);
    }
    ListText(d, SortPhrases(sort), items);
  }

  function WhereText(d: Dialect, filters: seq<Pred>, n: nat): string {
    if filters == [] then "" else "WHERE" + " " + TextOf(d, JoinedPhrase(filters, "AND", n))
  }

  lemma WhereIs(d: Dialect, before: Phrase, filters: seq<Pred>, n: nat)
    ensures TextOf(d, With(before, WherePhrase(filters, n))) == JoinClause(TextOf(d, before), WhereText(d, filters, n))
  {
    hide TextOf, Then, Append, Sp, T, JoinedPhrase;
    assert filters != [] ==> |WhereText(d, filters, n)| > 0;
  }

  function LimitText(d: Dialect, limit: Option<nat>, offset: nat): string {
    var limits :=
      if limit.Some? then "LIMIT" + " " + Decimal(limit.value)
      else if d.Sqlite? then "LIMIT" + " " + "-" + "1" else "LIMIT" + " " + Decimal(18446744073709551615);
    if offset != 0 then limits + " " + "OFFSET" + " " + Decimal(offset) else if limit.Some? then limits else ""
  }

  lemma LimitClauseIs(d: Dialect, limit: Option<nat>)
    ensures TextOf(d, LimitClause(limit)) == if limit.Some? then "LIMIT" + " " + Decimal(limit.value) else "LIMIT" + " " + "-" + "1"
  {
    hide TextOf, Then, Append, Sp, T, Decimal;
    SmallNumbers();
  }

  lemma LimitPhraseIs(d: Dialect, limit: Option<nat>, offset: nat)
    requires LimitPhrase(d, limit, offset).Some?
    ensures TextOf(d, LimitPhrase(d, limit, offset).value) == LimitText(d, limit, offset) != ""
  {
    hide TextOf, Then, Append, Sp, T, Decimal, LimitClause;
    LimitClauseIs(d, limit);
    LimitClauseIs(d, EffectiveLimit(d, limit));
    assert |LimitText(d, limit, offset)| > 0;
  }

  lemma LimitIs(d: Dialect, before: Phrase, limit: Option<nat>, offset: nat)
    ensures TextOf(d, With(before, LimitPhrase(d, limit, offset))) == JoinClause(TextOf(d, before), LimitText(d, limit, offset))
  {
    hide TextOf, Then, Append, Sp, T, Decimal, LimitClause;
    if LimitPhrase(d, limit, offset).Some? {
      hide LimitText, LimitPhrase;
      LimitPhraseIs(d, limit, offset);
    }
  }

  // ----- statements -----

  function HeadText(d: Dialect, table: string, columns: seq<string>): string {
    "SELECT" + " " + (if columns == [] then "*" else NameList(d, columns)) + " " + "FROM" + " " + Q(d, table)
  }

  lemma HeadIs(d: Dialect, table: string, columns: seq<string>)
    ensures TextOf(d, SelectHead(table, columns)) == HeadText(d, table, columns)
  {
    hide TextOf, Then, Append, Sp, T, Delimit, Placeholder, ListPhrase, NameList;
    if columns != [] {
      NamesText(d, columns);
    }
  }

  function OrderText(d: Dialect, sort: seq<SortTerm>): string {
    if sort == [] then "" else "ORDER" + " " + "BY" + " " + SortList(d, sort)
  }

  lemma OrderIs(d: Dialect, before: Phrase, sort: seq<SortTerm>)
    ensures TextOf(d, With(before, OrderPhrase(sort))) == JoinClause(TextOf(d, before), OrderText(d, sort))
  {
    hide TextOf, Then, Append, Sp, T, Delimit, Placeholder, ListPhrase, SortList;
    if sort != [] {
      SortText(d, sort);
    }
    assert sort != [] ==> |OrderText(d, sort)| > 0;
  }

  /** Columns, table, conditions, order and window, each clause after a space and empty ones left out. */
  lemma SelectText(d: Dialect, schema: ModelSchema, q: Select)
    ensures TextOf(d, SelectPhrase(d, schema, q)) ==
      JoinClause(JoinClause(JoinClause(HeadText(d, schema.name, ProjectedColumns(schema, q.projection)), WhereText(d, q.filters, 0)),
                            OrderText(d, q.sort)), LimitText(d, q.limit, q.offset))
  {
    hide TextOf, Then, Append, Sp, T, Delimit, Placeholder, With, SelectHead, HeadText, WherePhrase, OrderPhrase, LimitPhrase, LimitText, WhereText, OrderText, JoinClause,
      ProjectedColumns;
    var head := SelectHead(schema.name, ProjectedColumns(schema, q.projection));
    HeadIs(d, schema.name, ProjectedColumns(schema, q.projection));
    WhereIs(d, head, q.filters, 0);
    OrderIs(d, With(head, WherePhrase(q.filters, 0)), q.sort);
    LimitIs(d, With(With(head, WherePhrase(q.filters, 0)), OrderPhrase(q.sort)), q.limit, q.offset);
  }

  /** The projection is compiled with the primary key at its end, unless it is there. */
  lemma ColumnsAre(schema: ModelSchema, projection: seq<string>)
    ensures ProjectedColumns(schema, projection) ==
      if projection != [] && schema.primaryKey.Some? && schema.primaryKey.value !in projection then projection + [schema.primaryKey.value]
      else projection
  {
  }

  lemma CountText(d: Dialect, table: string, filters: seq<Pred>)
    ensures TextOf(d, CountPhrase(table, filters)) ==
      JoinClause("SELECT" + " " + "COUNT" + "(" + "*" + ")" + " " + "AS" + " " + Q(d, "count") + " " + "FROM" + " " + Q(d, table),
                 WhereText(d, filters, 0))
  {
    hide TextOf, Then, Append, Sp, T, Delimit, Placeholder, WherePhrase, WhereText, JoinClause, With;
    WhereIs(d, CountHead(table), filters, 0);
  }

  function InnerText(d: Dialect, table: string, filters: seq<Pred>): string {
    JoinClause("SELECT" + " " + "1" + " " + "FROM" + " " + Q(d, table), WhereText(d, filters, 0)) + " " + ("LIMIT" + " " + "1")
  }

  lemma InnerIs(d: Dialect, table: string, filters: seq<Pred>)
    ensures TextOf(d, InnerPhrase(table, filters)) == InnerText(d, table, filters)
  {
    hide TextOf, Then, Append, Sp, T, Delimit, Placeholder, WherePhrase, WhereText, JoinClause, Decimal;
    SmallNumbers();
    WhereIs(d, InnerHead(table), filters, 0);
  }

  lemma ExistsTextIs(d: Dialect, table: string, filters: seq<Pred>)
    ensures TextOf(d, ExistsPhrase(table, filters)) ==
      "SELECT" + " " + "EXISTS" + "(" + InnerText(d, table, filters) + ")" + " " + "AS" + " " + Q(d, "exists")
  {
    hide TextOf, Then, Append, Sp, T, Delimit, Placeholder, InnerPhrase, InnerText;
    InnerIs(d, table, filters);
  }

  function SetItem(d: Dialect, column: string, k: nat): string {
    Q(d, column) + " " + "=" + " " + P(d, k)
  }

  function SetList(d: Dialect, assignments: Assignments, n: nat): string {
    CommaList(seq(|assignments|, i requires 0 <= i < |assignments| => SetItem(d, assignments[i].0, n + i)))
  }

  lemma SetItemIs(d: Dialect, column: string, k: nat)
    ensures TextOf(d, AssignPhrase(column, k)) == SetItem(d, column, k)
  {
    hide TextOf, Then, Append, Sp, T, Delimit, Placeholder;
  }

  lemma SetsText(d: Dialect, assignments: Assignments, n: nat)
    requires assignments != []
    ensures TextOf(d, ListPhrase(AssignPhrases(assignments, n))) == SetList(d, assignments, n)
  {
    hide TextOf, Then, Append, Sp, T, Delimit, Placeholder, ListPhrase, CommaList, SetItem, AssignPhrase;
    var items := seq(|assignments|, i requires 0 <= i < |assignments| => SetItem(d, assignments[i].0, n + i));
    forall i | 0 <= i < |assignments| ensures items[i] == TextOf(d, AssignPhrases(assignments, n)[i]) {
      SetItemIs(d, assignments[i].0, n + i);
    }
    ListText(d, AssignPhrases(assignments, n), items);
  }

  lemma UpdateText(d: Dialect, table: string, assignments: Assignments, filters: seq<Pred>)
    requires assignments != []
    ensures TextOf(d, UpdatePhrase(table, assignments, filters)) ==
      JoinClause("UPDATE" + " " + Q(d, table) + " " + "SET" + " " + SetList(d, assignments, 0), WhereText(d, filters, |assignments|))
  {
    hide TextOf, Then, Append, Sp, T, Delimit, Placeholder, WherePhrase, WhereText, ListPhrase, SetList, JoinClause, With;
    SetsText(d, assignments, 0);
    WhereIs(d, UpdateHead(table, assignments), filters, |assignments|);
  }

  lemma DeleteText(d: Dialect, table: string, filters: seq<Pred>)
    ensures TextOf(d, DeletePhrase(table, filters)) ==
      JoinClause("DELETE" + " " + "FROM" + " " + Q(d, table), WhereText(d, filters, 0))
  {
    hide TextOf, Then, Append, Sp, T, Delimit, Placeholder, WherePhrase, WhereText, JoinClause, With;
    WhereIs(d, Then(Then(T(Keyword("DELETE")), Keyword("FROM")), Ident(table)), filters, 0);
  }

  function TupleItem(d: Dialect, n: nat, k: nat): string {
    "(" + PlaceholderList(d, n, k) + ")"
  }

  function TupleList(d: Dialect, count: nat, k: nat): string {
    CommaList(seq(count, i requires 0 <= i => TupleItem(d, i * k, k)))
  }

  lemma TupleTextIs(d: Dialect, n: nat, k: nat)
    ensures TextOf(d, TuplePhrase(n, k)) == TupleItem(d, n, k)
  {
    hide TextOf, Then, Append, Sp, T, Placeholder, BindsPhrase;
    if k > 0 {
      BindsText(d, n, k);
    } else {
      assert "(" + "" == "(";
    }
  }

  lemma TuplesText(d: Dialect, count: nat, k: nat)
    requires count > 0
    ensures TextOf(d, ListPhrase(TuplePhrases(count, k))) == TupleList(d, count, k)
  {
    hide TextOf, ListPhrase, CommaList, TupleItem, TuplePhrase;
    var items := seq(count, i requires 0 <= i => TupleItem(d, i * k, k));
    forall i | 0 <= i < count ensures items[i] == TextOf(d, TuplePhrases(count, k)[i]) {
      TupleTextIs(d, i * k, k);
    }
    ListText(d, TuplePhrases(count, k), items);
  }

  lemma ParensTextIs(d: Dialect, names: seq<string>)
    ensures TextOf(d, Parens(IdentPhrases(names))) == "(" + NameList(d, names) + ")"
  {
    hide TextOf, Then, Append, Sp, T, Delimit, Placeholder, ListPhrase;
    if names != [] {
      NamesText(d, names);
    } else {
      assert "(" + "" == "(";
    }
  }

  /** Words with a space between any two. */
  lemma {:induction false} SentenceIs(ws: seq<string>, w: string)
    ensures Sentence([w]) == w && (ws != [] ==> Sentence(ws + [w]) == Sentence(ws) + " " + w)
  {
    assert (ws + [w])[..|ws|] == ws;
  }

  lemma BodyIs(d: Dialect, verb: seq<string>, table: string, columns: seq<string>, count: nat)
    requires verb != [] && count > 0
    ensures TextOf(d, InsertBody(verb, table, columns, count)) ==
      Sentence(verb) + " " + "INTO" + " " + Q(d, table) + " " + ("(" + NameList(d, columns) + ")") + " " + "VALUES" + " "
      + TupleList(d, count, |columns|)
  {
    hide TextOf, Then, Append, Sp, T, Delimit, Placeholder, Words, Parens, ListPhrase, NameList, TupleList, Sentence;
    WordsText(d, verb);
    ParensTextIs(d, columns);
    TuplesText(d, count, |columns|);
  }

  function IgnoreText(d: Dialect, c: Tables.Conflict): string {
    if c.Ignore? && !d.Mysql? then Sentence(["ON", "CONFLICT", "DO", "NOTHING"]) else ""
  }

  function ReturnText(d: Dialect): string {
    if d.Mysql? then "" else "RETURNING" + " " + "*"
  }

  lemma ReturnIs(d: Dialect, before: Phrase)
    ensures TextOf(d, With(before, ReturningPhrase(d))) == JoinClause(TextOf(d, before), ReturnText(d))
  {
    hide TextOf, Then, Append, Sp, T;
    assert !d.Mysql? ==> |ReturnText(d)| > 0;
  }

  lemma IgnoreIs(d: Dialect, before: Phrase, c: Tables.Conflict)
    ensures TextOf(d, With(before, IgnorePhrase(d, c))) == JoinClause(TextOf(d, before), IgnoreText(d, c))
  {
    hide TextOf, Then, Append, Sp, T, Words;
    var ws := ["ON", "CONFLICT", "DO", "NOTHING"];
    WordsText(d, ws);
    assert |Sentence(ws)| > 0;
  }

  lemma InsertText(d: Dialect, table: string, c: Tables.Conflict, columns: seq<string>, count: nat)
    requires count > 0
    ensures
      var verb := if c.Ignore? && d.Mysql? then ["INSERT", "IGNORE"]
                  else if c.Replace? && d.Sqlite? then ["INSERT", "OR", "REPLACE"]
                  else if c.Replace? && d.Mysql? then ["REPLACE"] else ["INSERT"];
      TextOf(d, InsertPhrase(d, table, c, columns, count)) ==
        JoinClause(JoinClause(
          Sentence(verb) + " " + "INTO" + " " + Q(d, table) + " " + ("(" + NameList(d, columns) + ")") + " " + "VALUES" + " "
            + TupleList(d, count, |columns|), IgnoreText(d, c)), ReturnText(d))
  {
    hide TextOf, Then, Append, Sp, T, Delimit, Placeholder, NameList, TupleList, InsertBody, Sentence, IgnoreText, ReturnText, With, IgnorePhrase, ReturningPhrase, JoinClause;
    BodyIs(d, Verb(d, c), table, columns, count);
    IgnoreIs(d, InsertBody(Verb(d, c), table, columns, count), c);
    ReturnIs(d, With(InsertBody(Verb(d, c), table, columns, count), IgnorePhrase(d, c)));
  }

  function KeepItem(d: Dialect, column: string): string {
    Q(d, column) + " " + "=" + " " + Q(d, column)
  }

  function KeepList(d: Dialect, columns: seq<string>): string {
    CommaList(seq(|columns|, i requires 0 <= i < |columns| => KeepItem(d, columns[i])))
  }

  lemma KeepItemIs(d: Dialect, column: string)
    ensures TextOf(d, KeepPhrase(column)) == KeepItem(d, column)
  {
    hide TextOf, Then, Append, Sp, T, Delimit, Placeholder;
  }

  lemma KeepsText(d: Dialect, columns: seq<string>)
    requires columns != []
    ensures TextOf(d, ListPhrase(KeepPhrases(columns))) == KeepList(d, columns)
  {
    hide TextOf, Then, Append, Sp, T, Delimit, Placeholder, ListPhrase, CommaList, KeepItem, KeepPhrase;
    var items := seq(|columns|, i requires 0 <= i < |columns| => KeepItem(d, columns[i]));
    forall i | 0 <= i < |columns| ensures items[i] == TextOf(d, KeepPhrases(columns)[i]) {
      KeepItemIs(d, columns[i]);
    }
    ListText(d, KeepPhrases(columns), items);
  }

  /** An upsert sets its values, or without any the key columns to themselves, on MySQL the first of them. */
  function UpsertSets(d: Dialect, key: Assignments, values: Assignments): string {
    if values != [] then SetList(d, values, |UpsertColumns(key, values)|)
    else KeepList(d, if d.Mysql? && key != [] then [key[0].0] else Keys(key))
  }

  lemma SetIs(d: Dialect, before: Phrase, key: Assignments, values: Assignments)
    ensures TextOf(d, AfterSpace(before, SetPhrases(d, key, values))) == TextOf(d, before) + " " + UpsertSets(d, key, values)
  {
    hide TextOf, Then, Append, Sp, T, Delimit, Placeholder, ListPhrase, UpsertColumns;
    if values != [] {
      SetsText(d, values, |UpsertColumns(key, values)|);
    } else if KeptColumns(d, key) != [] {
      KeepsText(d, KeptColumns(d, key));
    } else {
      assert TextOf(d, before) + " " + "" == TextOf(d, before) + " ";
    }
  }

  function ActionIs(d: Dialect, key: Assignments): string {
    if d.Mysql? then Sentence(["ON", "DUPLICATE", "KEY", "UPDATE"])
    else Sentence(["ON", "CONFLICT"]) + " " + ("(" + NameList(d, Keys(key)) + ")") + " " + Sentence(["DO", "UPDATE", "SET"])
  }

  lemma ActionTextIs(d: Dialect, key: Assignments)
    ensures TextOf(d, ActionPhrase(d, key)) == ActionIs(d, key)
  {
    hide TextOf, Then, Append, Sp, T, Delimit, Placeholder, Words, Sentence, Parens, NameList;
    WordsText(d, ["ON", "DUPLICATE", "KEY", "UPDATE"]);
    WordsText(d, ["ON", "CONFLICT"]);
    WordsText(d, ["DO", "UPDATE", "SET"]);
    ParensTextIs(d, Keys(key));
  }

  lemma UpsertText(d: Dialect, table: string, key: Assignments, values: Assignments)
    ensures
      var columns := UpsertColumns(key, values);
      TextOf(d, UpsertPhrase(d, table, key, values)) ==
        JoinClause(
          Sentence(["INSERT"]) + " " + "INTO" + " " + Q(d, table) + " " + ("(" + NameList(d, columns) + ")") + " " + "VALUES" + " "
            + TupleItem(d, 0, |columns|) + " " + ActionIs(d, key) + " " + UpsertSets(d, key, values), ReturnText(d))
  {
    hide TextOf, Then, Append, Sp, T, Delimit, Placeholder, NameList, InsertBody, SetList, KeepList, AfterSpace, SetPhrases, UpsertColumns, UpsertSets, ActionIs, ActionPhrase, ReturnText,
      With, ReturningPhrase, JoinClause, TupleItem, Sentence;
    var columns := UpsertColumns(key, values);
    var body := InsertBody(["INSERT"], table, columns, 1);
    BodyIs(d, ["INSERT"], table, columns, 1);
    ActionTextIs(d, key);
    SetIs(d, Append(Sp(body), ActionPhrase(d, key)), key, values);
    ReturnIs(d, AfterSpace(Append(Sp(body), ActionPhrase(d, key)), SetPhrases(d, key, values)));
  }

  /** The columns of an upsert are the names of the key and then of the values, each once. */
  lemma UpsertColumnsAre(key: Assignments, values: Assignments)
    ensures
      var columns := UpsertColumns(key, values);
      && (forall n :: n in columns <==> n in Keys(key) || n in Keys(values))
      && (forall i, j :: 0 <= i < j < |columns| ==> columns[i] != columns[j])
      && (NoNameTwice(Keys(key)) ==> Keys(key) <= columns)
  {
    FirstsHold(Keys(key) + Keys(values));
    FirstsPrefix(Keys(key), Keys(values));
    if NoNameTwice(Keys(key)) {
      FirstsOfDistinct(Keys(key));
    }
  }

  // ----- statements that are not written -----

  lemma {:induction false} NamesFail(names: seq<string>)
    ensures NamesFault(names) == if exists i :: 0 <= i < |names| && ('.' in names[i] || '\0' in names[i]) then Some(DialectError) else None
    ensures QuoteFault(names) == if exists i :: 0 <= i < |names| && '\0' in names[i] then Some(DialectError) else None
  {
    if names != [] {
      NamesFail(names[1..]);
      assert names == [names[0]] + names[1..];
    }
  }

  lemma {:induction false} SortsFail(sort: seq<SortTerm>)
    ensures SortFault(sort) == if exists i :: 0 <= i < |sort| && ('.' in sort[i].field || '\0' in sort[i].field) then Some(DialectError) else None
  {
    if sort != [] {
      SortsFail(sort[1..]);
      assert sort == [sort[0]] + sort[1..];
    }
  }

  /** An update needs an assignment, an insert a row; replacing rows is refused for PostgreSQL; otherwise names
      and filters decide, in the order in which they are compiled. */
  lemma StatementsFail(d: Dialect, schema: ModelSchema, q: Select, table: string, assignments: Assignments, filters: seq<Pred>)
    ensures
      var name := if '\0' in schema.name then Some(DialectError) else None;
      SelectFault(schema, q) == if name.Some? then name
                                else if NamesFault(ProjectedColumns(schema, q.projection)).Some? then Some(DialectError)
                                else if FaultIn(q.filters).Some? then FaultIn(q.filters)
                                else SortFault(q.sort)
    ensures
      UpdateFault(table, assignments, filters) ==
        if assignments == [] then Some(QueryError)
        else if (exists i :: 0 <= i < |assignments| && '\0' in Keys(assignments)[i]) || '\0' in table then Some(DialectError)
        else FaultIn(filters)
  {
    NamesFail(ProjectedColumns(schema, q.projection));
    AssignmentFaultFree(assignments);
    NamesFail(Keys(assignments));
  }

  lemma InsertsFail(d: Dialect, model: Model, rows: seq<Assignments>, c: Tables.Conflict)
    ensures
      InsertFault(d, model, rows, c) ==
        if rows == [] then Some(QueryError)
        else if (c.Replace? && d.Postgres?) || '\0' in model.name
          || exists i :: 0 <= i < |InsertColumns(model, rows)| && '\0' in InsertColumns(model, rows)[i] then Some(DialectError)
        else None
  {
    NamesFail(InsertColumns(model, rows));
  }
}
