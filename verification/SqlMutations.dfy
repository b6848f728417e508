/**
  UPDATE and DELETE statements: their compilation, the placeholders they number, and reading their text
  back. SqlAgainstEngine compares their execution, on a table with a primary key, with the reference
  engine.
 */
module SqlMutations {
  import opened Values
  import opened Predicates
  import opened SqlText
  import opened SqlSearch
  import opened SqlCompiler
  import opened SqlMeaning
  import opened SqlAgreement
  import opened SqlStatements
  import opened SqlExecution
  import opened Selects

  /** The items of the assignment dictionary, in order. */
  type Assignments = seq<(string, Value)>

  /** The assignment items as the dictionary they come from. */
  function DictOf(assignments: Assignments): Row {
    if assignments == [] then map[] else map[assignments[0].0 := assignments[0].1] + DictOf(assignments[1..])
  }

  // ----- specification -----

  function AssignedValues(assignments: Assignments): (r: seq<Value>)
    ensures |r| == |assignments| && forall i :: 0 <= i < |r| ==> r[i] == assignments[i].1
  {
    seq(|assignments|, i requires 0 <= i < |assignments| => assignments[i].1)
  }

  /** The first assigned column that cannot be quoted. */
  function AssignmentFault(assignments: Assignments): Option<CompileError> {
    if assignments == [] then None
    else FirstFault(NameFault(assignments[0].0, false), AssignmentFault(assignments[1..]))
  }

  function AssignPhrase(column: string, n: nat): Phrase {
    Then(Then(T(Ident(column)), Op("=")), Bind(n))
  }

  /** The assignments, their values bound from index `n` on. */
  function AssignPhrases(assignments: Assignments, n: nat): (r: seq<Phrase>)
    ensures |r| == |assignments| && forall i :: 0 <= i < |r| ==> r[i] == AssignPhrase(assignments[i].0, n + i)
  {
    seq(|assignments|, i requires 0 <= i < |assignments| => AssignPhrase(assignments[i].0, n + i))
  }

  function UpdateHead(table: string, assignments: Assignments): Phrase
    requires assignments != []
  {
    Append(Sp(Then(Then(T(Keyword("UPDATE")), Ident(table)), Keyword("SET"))), ListPhrase(AssignPhrases(assignments, 0)))
  }

  function UpdatePhrase(table: string, assignments: Assignments, filters: seq<Pred>): Phrase
    requires assignments != []
  {
    With(UpdateHead(table, assignments), WherePhrase(filters, |assignments|))
  }

  function DeletePhrase(table: string, filters: seq<Pred>): Phrase {
    With(Then(Then(T(Keyword("DELETE")), Keyword("FROM")), Ident(table)), WherePhrase(filters, 0))
  }

  /** The assignments are compiled before the table name is quoted. */
  function UpdateFault(table: string, assignments: Assignments, filters: seq<Pred>): Option<CompileError> {
    if assignments == [] then Some(QueryError)
    else FirstFault(AssignmentFault(assignments), FirstFault(NameFault(table, false), FaultIn(filters)))
  }

  function NormalizedRow(collections: set<string>, row: Assignments): Assignments {
    if row == [] then []
    else
      var n := |row| - 1;
      NormalizedRow(collections, row[..n]) + if row[n].0 in collections then [] else [row[n]]
  }

  /** Drops the collection fields. */
  method NormalizeRow(collections: set<string>, row: Assignments) returns (out: Assignments)
    ensures out == NormalizedRow(collections, row)
  {
    out := [];
    for i := 0 to |row|
      invariant out == NormalizedRow(collections, row[..i])
    {
      assert row[..i + 1][..i] == row[..i];
      if row[i].0 !in collections {
        out := out + [row[i]];
      }
    }
    assert row[..|row|] == row;
  }

  // ----- compilation -----

  lemma AssignmentFaultStep(assignments: Assignments, i: nat)
    requires i < |assignments|
    ensures AssignmentFault(assignments[i..]) == FirstFault(NameFault(assignments[i].0, false), AssignmentFault(assignments[i + 1..]))
  {
    assert assignments[i..][1..] == assignments[i + 1..];
  }

  method AssignOne(d: Dialect, column: string, value: Value, params: ParameterCollector)
    returns (r: Result<string, CompileError>)
    requires params.style == d.Style()
    modifies params
    ensures Compiled(d, NameFault(column, false), AssignPhrase(column, |old(params.values)|), r)
    ensures params.values == if r.Ok? then old(params.values) + [value] else old(params.values)
  {
    r := Quote(d, column);
    if r.Ok? {
      var placeholder := params.Add(value);
      r := Ok(r.value + " " + "=" + " " + placeholder);
    }
  }

  ghost predicate AssignTexts(d: Dialect, assignments: Assignments, n: nat, parts: seq<string>) {
    |parts| == |assignments| && forall i :: 0 <= i < |parts| ==> parts[i] == TextOf(d, AssignPhrase(assignments[i].0, n + i))
  }

  lemma OneMore(d: Dialect, assignments: Assignments, n: nat, i: nat, parts: seq<string>, part: string)
    requires i < |assignments| && AssignTexts(d, assignments[..i], n, parts)
    requires part == TextOf(d, AssignPhrase(assignments[i].0, n + i))
    ensures AssignTexts(d, assignments[..i + 1], n, parts + [part])
    ensures AssignedValues(assignments[..i + 1]) == AssignedValues(assignments[..i]) + [assignments[i].1]
  {
    hide TextOf, AssignPhrase;
    var more := assignments[..i + 1];
    forall k | 0 <= k < |parts + [part]|
      ensures (parts + [part])[k] == TextOf(d, AssignPhrase(more[k].0, n + k))
    {
      if k < i {
        assert more[k] == assignments[..i][k];
      }
    }
  }

  method Assign(d: Dialect, assignments: Assignments, params: ParameterCollector)
    returns (r: Result<seq<string>, CompileError>)
    requires params.style == d.Style()
    modifies params
    ensures AssignmentFault(assignments).Some? ==> r == Err(AssignmentFault(assignments).value)
    ensures AssignmentFault(assignments).None? ==> r.Ok? && AssignTexts(d, assignments, |old(params.values)|, r.value)
    ensures r.Ok? ==> params.values == old(params.values) + AssignedValues(assignments)
  {
    hide TextOf, AssignPhrase, NameFault, Delimit, Spell;
    var parts: seq<string> := [];
    ghost var before := params.values;
    for i := 0 to |assignments|
      invariant AssignmentFault(assignments) == AssignmentFault(assignments[i..])
      invariant AssignTexts(d, assignments[..i], |before|, parts)
      invariant params.values == before + AssignedValues(assignments[..i])
    {
      AssignmentFaultStep(assignments, i);
      var part := AssignOne(d, assignments[i].0, assignments[i].1, params);
      if part.Err? {
        return Err(part.error);
      }
      OneMore(d, assignments, |before|, i, parts, part.value);
      AppendTwice(before, AssignedValues(assignments[..i]), [assignments[i].1]);
      parts := parts + [part.value];
    }
    assert assignments[..|assignments|] == assignments;
    r := Ok(parts);
  }

  lemma UpdateText(d: Dialect, table: string, assignments: Assignments, filters: seq<Pred>, parts: seq<string>, clause: string)
    requires assignments != [] && AssignTexts(d, assignments, 0, parts)
    requires ClauseText(d, WherePhrase(filters, |assignments|), clause)
    ensures JoinClause("UPDATE" + " " + Delimit(table, d.QuoteChar()) + " " + "SET" + " " + CommaJoin(parts), clause) ==
      TextOf(d, UpdatePhrase(table, assignments, filters))
  {
    hide ListPhrase, WherePhrase, CommaJoin, AssignPhrase;
    CommaText(d, AssignPhrases(assignments, 0), parts);
    WithText(d, UpdateHead(table, assignments), WherePhrase(filters, |assignments|), clause);
  }

  method CompileUpdate(d: Dialect, table: string, collections: set<string>, raw: Assignments, filters: seq<Pred>)
    returns (r: Result<Statement, CompileError>)
    ensures var assignments := NormalizedRow(collections, raw);
            var fault := UpdateFault(table, assignments, filters);
            if fault.Some? then r == Err(fault.value)
            else r == Ok(Statement(TextOf(d, UpdatePhrase(table, assignments, filters)),
                                   AssignedValues(assignments) + ValuesIn(filters)))
  {
    hide TextOf, UpdatePhrase, WherePhrase, CommaJoin, JoinClause, ClauseText, Delimit, NormalizedRow;
    var assignments := NormalizeRow(collections, raw);
    if assignments == [] {
      return Err(QueryError);
    }
    var params := new ParameterCollector(d.Style());
    var parts := Assign(d, assignments, params);
    if parts.Err? {
      return Err(parts.error);
    }
    assert params.values == AssignedValues(assignments);
    var name := Quote(d, table);
    if name.Err? {
      return Err(name.error);
    }
    var clauseWhere := Where(d, filters, params);
    if clauseWhere.Err? {
      return Err(clauseWhere.error);
    }
    UpdateText(d, table, assignments, filters, parts.value, clauseWhere.value);
    var sql := "UPDATE" + " " + name.value + " " + "SET" + " " + CommaJoin(parts.value);
    r := Ok(Statement(JoinClause(sql, clauseWhere.value), params.values));
  }

  method CompileDelete(d: Dialect, table: string, filters: seq<Pred>) returns (r: Result<Statement, CompileError>)
    ensures var fault := FirstFault(NameFault(table, false), FaultIn(filters));
            if fault.Some? then r == Err(fault.value)
            else r == Ok(Statement(TextOf(d, DeletePhrase(table, filters)), ValuesIn(filters)))
  {
    var name := Quote(d, table);
    if name.Err? {
      return Err(name.error);
    }
    var params := new ParameterCollector(d.Style());
    var clauseWhere := Where(d, filters, params);
    if clauseWhere.Err? {
      return Err(clauseWhere.error);
    }
    WithText(d, Then(Then(T(Keyword("DELETE")), Keyword("FROM")), Ident(table)), WherePhrase(filters, 0), clauseWhere.value);
    r := Ok(Statement(JoinClause("DELETE" + " " + "FROM" + " " + name.value, clauseWhere.value), params.values));
  }

  // ----- reading and executing -----

  datatype Mutation =
    | Update(table: string, targets: seq<(string, nat)>, condition: Option<Cond>)
    | Delete(table: string, condition: Option<Cond>)

  function ParseTargets(ts: seq<Token>): (r: Option<(seq<(string, nat)>, seq<Token>)>)
    ensures r.Some? ==> |r.value.1| < |ts|
  {
    if |ts| < 3 || !ts[0].Ident? || ts[1] != Op("=") || !ts[2].Bind? then None
    else
      var target := (ts[0].name, ts[2].index);
      if |ts| > 3 && ts[3] == Punct(',') then
        var r := ParseTargets(ts[4..]);
        if r.None? then None else Some(([target] + r.value.0, r.value.1))
      else Some(([target], ts[3..]))
  }

  function ParseMutation(ts: seq<Token>): Option<Mutation> {
    if |ts| > 2 && ts[0] == Keyword("DELETE") && ts[1] == Keyword("FROM") && ts[2].Ident? then
      var c := ParseWhere(ts[3..]);
      if c.None? || c.value.1 != [] then None else Some(Delete(ts[2].name, c.value.0))
    else if |ts| > 2 && ts[0] == Keyword("UPDATE") && ts[1].Ident? && ts[2] == Keyword("SET") then
      var targets := ParseTargets(ts[3..]);
      if targets.None? then None
      else
        var c := ParseWhere(targets.value.1);
        if c.None? || c.value.1 != [] then None else Some(Update(ts[1].name, targets.value.0, c.value.0))
    else None
  }

  function Assigned(row: Row, params: seq<Value>, targets: seq<(string, nat)>): Row
    decreases |targets|
  {
    if targets == [] then row
    else
      var (column, i) := targets[0];
      Assigned(row[column := if i < |params| then params[i] else Null], params, targets[1..])
  }

  /** The table after the statement. */
  function Apply(m: Mutation, params: seq<Value>, table: seq<Row>): seq<Row> {
    if table == [] then []
    else
      var rest := Apply(m, params, table[1..]);
      if !Chosen(table[0], params, m.condition) then [table[0]] + rest
      else if m.Delete? then rest
      else [Assigned(table[0], params, m.targets)] + rest
  }

  // ----- what the reference engine does -----

  /** `row.update(assignments)` */
  function Updated(row: Row, assignments: Assignments): Row
    decreases |assignments|
  {
    if assignments == [] then row else Updated(row[assignments[0].0 := assignments[0].1], assignments[1..])
  }

  function ReferenceUpdate(assignments: Assignments, filters: seq<Pred>, table: seq<Row>): seq<Row> {
    if table == [] then []
    else
      [if MatchesAll(table[0], filters) == Ok(true) then Updated(table[0], assignments) else table[0]]
      + ReferenceUpdate(assignments, filters, table[1..])
  }

  function ReferenceDelete(filters: seq<Pred>, table: seq<Row>): seq<Row> {
    if table == [] then []
    else
      var rest := ReferenceDelete(filters, table[1..]);
      if MatchesAll(table[0], filters) == Ok(true) then rest else [table[0]] + rest
  }

  // ----- round trips -----

  function Targets(assignments: Assignments, n: nat): (r: seq<(string, nat)>)
    ensures |r| == |assignments| && forall i :: 0 <= i < |r| ==> r[i] == (assignments[i].0, n + i)
  {
    seq(|assignments|, i requires 0 <= i < |assignments| => (assignments[i].0, n + i))
  }

  function TargetParts(assignments: Assignments, n: nat): (r: seq<seq<Token>>)
    ensures |r| == |assignments|
    ensures forall i :: 0 <= i < |r| ==> r[i] == [Ident(assignments[i].0), Op("="), Bind(n + i)]
  {
    seq(|assignments|, i requires 0 <= i < |assignments| => [Ident(assignments[i].0), Op("="), Bind(n + i)])
  }

  lemma LastTarget(column: string, n: nat, rest: seq<Token>)
    requires rest == [] || rest[0] != Punct(',')
    ensures ParseTargets([Ident(column), Op("="), Bind(n)] + rest) == Some(([(column, n)], rest))
  {
    assert ([Ident(column), Op("="), Bind(n)] + rest)[3..] == rest;
  }

  lemma MoreTargets(column: string, n: nat, ts: seq<Token>, more: seq<(string, nat)>, rest: seq<Token>)
    requires ParseTargets(ts) == Some((more, rest))
    ensures ParseTargets([Ident(column), Op("="), Bind(n)] + ([Punct(',')] + ts)) == Some(([(column, n)] + more, rest))
  {
    assert ([Ident(column), Op("="), Bind(n)] + ([Punct(',')] + ts))[4..] == ts;
  }

  lemma {:induction false} TargetsParse(assignments: Assignments, n: nat, rest: seq<Token>)
    requires assignments != [] && (rest == [] || rest[0] != Punct(','))
    ensures ParseTargets(CommaTokens(TargetParts(assignments, n)) + rest) == Some((Targets(assignments, n), rest))
    decreases |assignments|
  {
    hide ParseTargets;
    var column := assignments[0].0;
    if |assignments| == 1 {
      LastTarget(column, n, rest);
      assert Targets(assignments, n) == [(column, n)];
    } else {
      var more := CommaTokens(TargetParts(assignments[1..], n + 1));
      assert TargetParts(assignments, n)[1..] == TargetParts(assignments[1..], n + 1);
      TargetsParse(assignments[1..], n + 1, rest);
      MoreTargets(column, n, more + rest, Targets(assignments[1..], n + 1), rest);
      AppendTwice(TargetParts(assignments, n)[0], [Punct(',')] + more, rest);
      AppendTwice([Punct(',')], more, rest);
      assert Targets(assignments, n) == [(column, n)] + Targets(assignments[1..], n + 1);
    }
  }

  lemma AssignReads(column: string, n: nat)
    ensures Tokens(AssignPhrase(column, n)) == [Ident(column), Op("="), Bind(n)]
    ensures Aligned(AssignPhrase(column, n), n, 1)
  {
    TTokens(Ident(column));
    TokenAligned(Ident(column), n);
    ThenTokens(T(Ident(column)), Op("="));
    ThenAligned(T(Ident(column)), Op("="), n, 0);
    ThenTokens(Then(T(Ident(column)), Op("=")), Bind(n));
    ThenAligned(Then(T(Ident(column)), Op("=")), Bind(n), n, 0);
  }

  /** A comma list of phrases that bind `width` values each, one after the other. */
  lemma {:induction false} ListCounts(ps: seq<Phrase>, n: nat, width: nat)
    requires ps != [] && forall i :: 0 <= i < |ps| ==> Aligned(ps[i], n + i * width, width)
    ensures Aligned(ListPhrase(ps), n, |ps| * width)
    decreases |ps|
  {
    hide Aligned;
    var k := |ps| - 1;
    if k == 0 {
      assert n + 0 * width == n && 1 * width == width;
    } else {
      var before := ListPhrase(ps[..k]);
      ListCounts(ps[..k], n, width);
      var m := k * width;
      assert m + width == |ps| * width;
      TTokens(Punct(','));
      TokenAligned(Punct(','), n + m);
      AppendAligned(before, T(Punct(',')), n, m, 0);
      ThenAligned(Append(before, T(Punct(','))), Punct(','), n, m);
      ThenTokens(Append(before, T(Punct(','))), Punct(','));
      AppendAligned(Sp(Append(before, T(Punct(',')))), ps[k], n, m, width);
    }
  }

  /** The assignments' placeholders follow each other from index `n` on. */
  lemma AssignmentsRead(assignments: Assignments, n: nat)
    requires assignments != []
    ensures Aligned(ListPhrase(AssignPhrases(assignments, n)), n, |assignments|)
    ensures Tokens(ListPhrase(AssignPhrases(assignments, n))) == CommaTokens(TargetParts(assignments, n))
  {
    hide Aligned, Tokens, AssignPhrase;
    var ps := AssignPhrases(assignments, n);
    forall i | 0 <= i < |ps| ensures Aligned(ps[i], n + i * 1, 1) && Tokens(ps[i]) == TargetParts(assignments, n)[i] {
      AssignReads(assignments[i].0, n + i);
    }
    ListCounts(ps, n, 1);
    ListTokens(ps, TargetParts(assignments, n));
  }

  lemma UpdateHeadReads(table: string, assignments: Assignments)
    requires assignments != []
    ensures Tokens(UpdateHead(table, assignments)) ==
      [Keyword("UPDATE"), Ident(table), Keyword("SET")] + CommaTokens(TargetParts(assignments, 0))
    ensures Aligned(UpdateHead(table, assignments), 0, |assignments|)
  {
    var update := T(Keyword("UPDATE"));
    var open := Then(Then(update, Ident(table)), Keyword("SET"));
    TTokens(Keyword("UPDATE"));
    TokenAligned(Keyword("UPDATE"), 0);
    ThenTokens(update, Ident(table));
    ThenAligned(update, Ident(table), 0, 0);
    ThenTokens(Then(update, Ident(table)), Keyword("SET"));
    ThenAligned(Then(update, Ident(table)), Keyword("SET"), 0, 0);
    ThenTokens(open, Keyword("SET"));
    ThenAligned(open, Keyword("SET"), 0, 0);
    AssignmentsRead(assignments, 0);
    AppendTokens(Sp(open), ListPhrase(AssignPhrases(assignments, 0)));
    AppendAligned(Sp(open), ListPhrase(AssignPhrases(assignments, 0)), 0, 0, |assignments|);
  }

  lemma ParsesUpdate(table: string, assignments: Assignments, filters: seq<Pred>)
    requires assignments != [] && forall p :: p in filters ==> Grounded(p)
    ensures ParseMutation([Keyword("UPDATE"), Ident(table), Keyword("SET")] + CommaTokens(TargetParts(assignments, 0))
                          + WhereTokens(filters, |assignments|)) ==
      Some(Update(table, Targets(assignments, 0), WhereCond(filters, |assignments|)))
  {
    var n := |assignments|;
    var w := WhereTokens(filters, n);
    WhereParses(filters, n, []);
    assert w + [] == w;
    var open := [Keyword("UPDATE"), Ident(table), Keyword("SET")];
    var targets := CommaTokens(TargetParts(assignments, 0));
    TargetsParse(assignments, 0, w);
    AppendTwice(open, targets, w);
    assert (open + (targets + w))[3..] == targets + w;
  }

  lemma UpdateRoundTrip(d: Dialect, table: string, assignments: Assignments, filters: seq<Pred>)
    requires assignments != [] && forall p :: p in filters ==> Grounded(p)
    ensures ParseMutation(Lex(d, TextOf(d, UpdatePhrase(table, assignments, filters)), 0)) ==
      Some(Update(table, Targets(assignments, 0), WhereCond(filters, |assignments|)))
  {
    var n := |assignments|;
    UpdateHeadReads(table, assignments);
    ThenWhere(UpdateHead(table, assignments), filters, n);
    LexPhrase(d, UpdatePhrase(table, assignments, filters), 0);
    ParsesUpdate(table, assignments, filters);
  }

  lemma DeleteHeadReads(table: string)
    ensures var head := Then(Then(T(Keyword("DELETE")), Keyword("FROM")), Ident(table));
            Aligned(head, 0, 0) && Tokens(head) == [Keyword("DELETE"), Keyword("FROM"), Ident(table)]
  {
    var delete := T(Keyword("DELETE"));
    TTokens(Keyword("DELETE"));
    TokenAligned(Keyword("DELETE"), 0);
    ThenTokens(delete, Keyword("FROM"));
    ThenAligned(delete, Keyword("FROM"), 0, 0);
    ThenTokens(Then(delete, Keyword("FROM")), Ident(table));
    ThenAligned(Then(delete, Keyword("FROM")), Ident(table), 0, 0);
  }

  lemma DeleteRoundTrip(d: Dialect, table: string, filters: seq<Pred>)
    requires forall p :: p in filters ==> Grounded(p)
    ensures ParseMutation(Lex(d, TextOf(d, DeletePhrase(table, filters)), 0)) == Some(Delete(table, WhereCond(filters, 0)))
  {
    var head := Then(Then(T(Keyword("DELETE")), Keyword("FROM")), Ident(table));
    DeleteHeadReads(table);
    ThenWhere(head, filters, 0);
    LexPhrase(d, DeletePhrase(table, filters), 0);
    var w := WhereTokens(filters, 0);
    WhereParses(filters, 0, []);
    assert w + [] == w;
    assert ([Keyword("DELETE"), Keyword("FROM"), Ident(table)] + w)[3..] == w;
  }

  lemma {:induction false} AssignedIsUpdated(row: Row, params: seq<Value>, assignments: Assignments, n: nat)
    requires BoundAt(params, n, AssignedValues(assignments))
    ensures Assigned(row, params, Targets(assignments, n)) == Updated(row, assignments)
    decreases |assignments|
  {
    if assignments != [] {
      var k := |assignments|;
      assert params[n] == params[n..n + k][0] == assignments[0].1;
      assert params[n + 1..n + k] == params[n..n + k][1..] == AssignedValues(assignments[1..]);
      AssignedIsUpdated(row[assignments[0].0 := assignments[0].1], params, assignments[1..], n + 1);
      assert Targets(assignments, n)[1..] == Targets(assignments[1..], n + 1);
    }
  }

  lemma {:induction false} ApplyUpdate(name: string, table: seq<Row>, assignments: Assignments, filters: seq<Pred>, types: Schema)
    requires Suits(filters, types, table)
    ensures forall p :: p in filters ==> Grounded(p)
    ensures Apply(Update(name, Targets(assignments, 0), WhereCond(filters, |assignments|)),
                  AssignedValues(assignments) + ValuesIn(filters), table) == ReferenceUpdate(assignments, filters, table)
  {
    SuitsGrounded(filters, types, table);
    if table != [] {
      var params := AssignedValues(assignments) + ValuesIn(filters);
      ApplyUpdate(name, table[1..], assignments, filters, types);
      assert table[0] in table;
      assert params[0..0 + |params|] == params;
      BoundSplit(params, 0, AssignedValues(assignments), ValuesIn(filters));
      ChosenIsMatched(table[0], params, filters, |assignments|, types);
      AssignedIsUpdated(table[0], params, assignments, 0);
    }
  }

  lemma {:induction false} ApplyDelete(name: string, table: seq<Row>, filters: seq<Pred>, types: Schema)
    requires Suits(filters, types, table)
    ensures forall p :: p in filters ==> Grounded(p)
    ensures Apply(Delete(name, WhereCond(filters, 0)), ValuesIn(filters), table) == ReferenceDelete(filters, table)
  {
    SuitsGrounded(filters, types, table);
    if table != [] {
      ApplyDelete(name, table[1..], filters, types);
      assert table[0] in table;
      assert ValuesIn(filters)[0..0 + |ValuesIn(filters)|] == ValuesIn(filters);
      ChosenIsMatched(table[0], ValuesIn(filters), filters, 0, types);
    }
  }

  // ----- the text depends on the shape alone -----

  /** Equal but for literal values: same nullness, same list lengths. */
  predicate SameShape(p: Pred, q: Pred)
    decreases p
  {
    match (p, q)
    case (Compare(op, l, r), Compare(op', l', r')) =>
      op == op' && l == l' && (ValueOf(r).Null? <==> ValueOf(r').Null?)
    case (Membership(neg, l, vs), Membership(neg', l', vs')) => neg == neg' && l == l' && |vs| == |vs'|
    case (Pattern(op, l, _), Pattern(op', l', _)) => op == op' && l == l'
    case (NullTest(op, l), NullTest(op', l')) => op.IsNull? == op'.IsNull? && l == l'
    case (Bool(c, ps), Bool(c', qs)) => c == c' && SameShapes(ps, qs)
    case (Not(o), Not(o')) => SameShape(o, o')
    case _ => false
  }

  predicate SameShapes(ps: seq<Pred>, qs: seq<Pred>)
    decreases ps
  {
    |ps| == |qs| && (ps == [] || (SameShape(ps[0], qs[0]) && SameShapes(ps[1..], qs[1..])))
  }

  /** Predicates that differ only in literal values compile to the same text. */
  lemma {:induction false} ShapeDecidesText(p: Pred, q: Pred, n: nat)
    requires SameShape(p, q)
    ensures PredPhrase(p, n) == PredPhrase(q, n) && |PredValues(p)| == |PredValues(q)|
    decreases p
  {
    match (p, q)
    case (Bool(_, ps), Bool(_, qs)) => ShapesDecideText(ps, qs, Joiner(p.conjunction), n);
    case (Not(o), Not(o')) => ShapeDecidesText(o, o', n);
    case (Compare(_, _, _), Compare(_, _, _)) =>
    case (Membership(_, _, _), Membership(_, _, _)) =>
    case (Pattern(_, _, _), Pattern(_, _, _)) =>
    case (NullTest(_, _), NullTest(_, _)) =>
  }

  lemma {:induction false} ShapesDecideText(ps: seq<Pred>, qs: seq<Pred>, joiner: string, n: nat)
    requires SameShapes(ps, qs)
    ensures |ValuesIn(ps)| == |ValuesIn(qs)|
    ensures ps != [] ==> JoinedPhrase(ps, joiner, n) == JoinedPhrase(qs, joiner, n)
    decreases ps
  {
    if ps != [] {
      ShapeDecidesText(ps[0], qs[0], n);
      ShapesDecideText(ps[1..], qs[1..], joiner, n + |PredValues(ps[0])|);
    }
  }

  /** No value reaches the text: queries of one shape give one SELECT and one DELETE, assignments to the
      same columns one UPDATE. */
  lemma ValuesNeverReachTheText(d: Dialect, schema: ModelSchema, q: Select, filters: seq<Pred>,
                                assignments: Assignments, others: Assignments)
    requires SameShapes(q.filters, filters)
    requires assignments != [] && |assignments| == |others|
    requires forall i :: 0 <= i < |assignments| ==> assignments[i].0 == others[i].0
    ensures TextOf(d, SelectPhrase(d, schema, q)) == TextOf(d, SelectPhrase(d, schema, q.(filters := filters)))
    ensures TextOf(d, UpdatePhrase(schema.name, assignments, q.filters)) ==
      TextOf(d, UpdatePhrase(schema.name, others, filters))
    ensures TextOf(d, DeletePhrase(schema.name, q.filters)) == TextOf(d, DeletePhrase(schema.name, filters))
  {
    ShapesDecideText(q.filters, filters, "AND", 0);
    ShapesDecideText(q.filters, filters, "AND", |assignments|);
    assert AssignPhrases(assignments, 0) == AssignPhrases(others, 0);
  }
}
