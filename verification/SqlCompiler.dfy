/**
  Compilation of predicate trees to SQL text: what the compiler writes, item by item, the values it
  binds, and the imperative compiler itself, which threads a parameter collector.
 */
module SqlCompiler {
  import opened Values
  import opened Predicates
  import opened SqlLike
  import opened SqlText

  datatype CompileError = DialectError | QueryError

  // ----- specification: errors -----

  function FieldFault(f: FieldRef): Option<CompileError> {
    if f.path != [] || '\0' in f.field then Some(DialectError) else None
  }

  function OperandFault(f: FieldRef, o: Operand): Option<CompileError> {
    if FieldFault(f).Some? then FieldFault(f)
    else if o.Param? then Some(QueryError)
    else None
  }

  /** The first error met, left to right. */
  function Fault(p: Pred): Option<CompileError>
    decreases p
  {
    match p
    case Compare(_, left, right) => OperandFault(left, right)
    case Membership(_, left, _) => FieldFault(left)
    case Pattern(_, left, right) => OperandFault(left, right)
    case NullTest(_, left) => FieldFault(left)
    case Bool(_, operands) => FaultIn(operands)
    case Not(operand) => Fault(operand)
  }

  function FaultIn(ps: seq<Pred>): Option<CompileError>
    decreases ps
  {
    if ps == [] then None else if Fault(ps[0]).Some? then Fault(ps[0]) else FaultIn(ps[1..])
  }

  // ----- specification: bound values -----

  /** `str(value)` of a scalar. */
  function ToText(v: Value): string {
    match v
    case Null => "None"
    case Int(i) => if i < 0 then "-" + Decimal(-i) else Decimal(i)
    case Str(s) => s
  }

  function ValueOf(o: Operand): Value {
    if o.Literal? then o.value else Null
  }

  predicate ComparesToNull(op: CompareOp, v: Value) {
    v.Null? && (op.Eq? || op.Ne?)
  }

  function PredValues(p: Pred): seq<Value>
    decreases p
  {
    match p
    case Compare(op, _, right) => if ComparesToNull(op, ValueOf(right)) then [] else [ValueOf(right)]
    case Membership(_, _, values) => values
    case Pattern(op, _, right) =>
      [if op.Like? then ValueOf(right) else Str(BoundPattern(op, ToText(ValueOf(right))))]
    case NullTest(_, _) => []
    case Bool(_, operands) => ValuesIn(operands)
    case Not(operand) => PredValues(operand)
  }

  function ValuesIn(ps: seq<Pred>): seq<Value>
    decreases ps
  {
    if ps == [] then [] else PredValues(ps[0]) + ValuesIn(ps[1..])
  }

  // ----- specification: text -----

  function Symbol(op: CompareOp): string {
    match op
    case Eq => "="
    case Ne => "<>"
    case Lt => "<"
    case Le => "<="
    case Gt => ">"
    case Ge => ">="
  }

  function ColumnPhrase(f: FieldRef): Phrase { T(Ident(f.field)) }

  function Close(p: Phrase): Phrase { Append(p, T(Punct(')'))) }

  function NullPhrase(f: FieldRef, negated: bool): Phrase {
    var tested := Then(ColumnPhrase(f), Keyword("IS"));
    Then(if negated then Then(tested, Keyword("NOT")) else tested, Keyword("NULL"))
  }

  /** A comparison when `n` values are bound so far. */
  function ComparePhrase(f: FieldRef, op: CompareOp, v: Value, n: nat): Phrase {
    if ComparesToNull(op, v) then NullPhrase(f, op.Ne?)
    else Then(Then(ColumnPhrase(f), Op(Symbol(op))), Bind(n))
  }

  function PatternPhrase(f: FieldRef, op: PatternOp, n: nat): Phrase {
    var like := Then(Then(ColumnPhrase(f), Keyword("LIKE")), Bind(n));
    if op.Like? then like else Then(Then(like, Keyword("ESCAPE")), Text("\\"))
  }

  function BindsPhrase(n: nat, count: nat): Phrase
    requires count > 0
  {
    if count == 1 then T(Bind(n))
    else Then(Append(BindsPhrase(n, count - 1), T(Punct(','))), Bind(n + count - 1))
  }

  function MembershipPhrase(negated: bool, f: FieldRef, count: nat, n: nat): Phrase {
    if count == 0 then Then(Then(T(Number(1)), Op("=")), Number(if negated then 1 else 0))
    else
      var column := if negated then Then(ColumnPhrase(f), Keyword("NOT")) else ColumnPhrase(f);
      Close(Append(Then(Then(column, Keyword("IN")), Punct('(')), BindsPhrase(n, count)))
  }

  function Joiner(conjunction: bool): string {
    if conjunction then "AND" else "OR"
  }

  function PredPhrase(p: Pred, n: nat): Phrase
    decreases p
  {
    match p
    case Compare(op, left, right) => ComparePhrase(left, op, ValueOf(right), n)
    case Membership(negated, left, values) => MembershipPhrase(negated, left, |values|, n)
    case Pattern(op, left, _) => PatternPhrase(left, op, n)
    case NullTest(op, left) => NullPhrase(left, !op.IsNull?)
    case Bool(conjunction, operands) =>
      if operands == [] then Append(T(Punct('(')), T(Punct(')')))
      else Close(Append(T(Punct('(')), JoinedPhrase(operands, Joiner(conjunction), n)))
    case Not(operand) =>
      Close(Append(Sp(Append(T(Punct('(')), T(Keyword("NOT")))), PredPhrase(operand, n)))
  }

  function JoinedPhrase(ps: seq<Pred>, joiner: string, n: nat): Phrase
    requires ps != []
    decreases ps
  {
    if |ps| == 1 then PredPhrase(ps[0], n)
    else
      Append(Sp(Then(PredPhrase(ps[0], n), Keyword(joiner))),
             JoinedPhrase(ps[1..], joiner, n + |PredValues(ps[0])|))
  }

  // ----- the compiler -----

  class ParameterCollector {
    const style: ParameterStyle
    var values: seq<Value>

    constructor (style: ParameterStyle)
      ensures this.style == style && values == []
    {
      this.style := style;
      values := [];
    }

    /** Binds the value and returns its placeholder, numbered by the new length. */
    method Add(value: Value) returns (placeholder: string)
      modifies this
      ensures values == old(values) + [value]
      ensures placeholder == Placeholder(style, |old(values)| + 1)
    {
      values := values + [value];
      placeholder := Placeholder(style, |values|);
    }
  }

  function Quote(d: Dialect, identifier: string): Result<string, CompileError> {
    if '\0' in identifier then Err(DialectError) else Ok(Delimit(identifier, d.QuoteChar()))
  }

  function ColumnText(d: Dialect, f: FieldRef): Result<string, CompileError> {
    if f.path != [] then Err(DialectError) else Quote(d, f.field)
  }

  /** The outcome a compiling method owes: the first error, or the text of the phrase. */
  ghost predicate Compiled(d: Dialect, fault: Option<CompileError>, p: Phrase, r: Result<string, CompileError>) {
    if fault.Some? then r == Err(fault.value) else r == Ok(TextOf(d, p))
  }

  method Comparison(d: Dialect, p: Pred, params: ParameterCollector) returns (r: Result<string, CompileError>)
    requires !p.Bool? && !p.Not? && params.style == d.Style()
    modifies params
    ensures Compiled(d, Fault(p), PredPhrase(p, |old(params.values)|), r)
    ensures r.Ok? ==> params.values == old(params.values) + PredValues(p)
    ensures r.Err? ==> params.values == old(params.values)
  {
    var column := ColumnText(d, p.left);
    if column.Err? {
      return column;
    }
    match p
    case Compare(op, left, right) =>
      if right.Param? {
        return Err(QueryError);
      }
      r := BinaryOp(d, column.value, left, op, right.value, params);
    case Membership(negated, left, values) =>
      r := InClause(d, column.value, left, values, params, negated);
    case Pattern(op, left, right) =>
      if right.Param? {
        return Err(QueryError);
      }
      r := LikeClause(d, column.value, left, op, right.value, params);
    case NullTest(op, left) =>
      if op.IsNull? {
        r := Ok(column.value + " " + "IS" + " " + "NULL");
      } else {
        r := Ok(column.value + " " + "IS" + " " + "NOT" + " " + "NULL");
      }
  }

  method BinaryOp(d: Dialect, column: string, ghost f: FieldRef, op: CompareOp, value: Value, params: ParameterCollector)
    returns (r: Result<string, CompileError>)
    requires column == Delimit(f.field, d.QuoteChar()) && params.style == d.Style()
    modifies params
    ensures r == Ok(TextOf(d, ComparePhrase(f, op, value, |old(params.values)|)))
    ensures params.values == old(params.values) + if ComparesToNull(op, value) then [] else [value]
  {
    if value.Null? && op.Eq? {
      return Ok(column + " " + "IS" + " " + "NULL");
    }
    if value.Null? && op.Ne? {
      return Ok(column + " " + "IS" + " " + "NOT" + " " + "NULL");
    }
    var placeholder := params.Add(value);
    r := Ok(column + " " + Symbol(op) + " " + placeholder);
  }

  method LikeClause(d: Dialect, column: string, ghost f: FieldRef, op: PatternOp, value: Value, params: ParameterCollector)
    returns (r: Result<string, CompileError>)
    requires column == Delimit(f.field, d.QuoteChar()) && params.style == d.Style()
    modifies params
    ensures r == Ok(TextOf(d, PatternPhrase(f, op, |old(params.values)|)))
    ensures params.values == old(params.values) + [if op.Like? then value else Str(BoundPattern(op, ToText(value)))]
  {
    if op.Like? {
      var placeholder := params.Add(value);
      r := Ok(column + " " + "LIKE" + " " + placeholder);
    } else {
      var placeholder := params.Add(Str(BoundPattern(op, ToText(value))));
      r := Ok(column + " " + "LIKE" + " " + placeholder + " " + "ESCAPE" + " " + "'\\'");
      SpellBackslash(d);
    }
  }

  lemma SpellBackslash(d: Dialect)
    ensures Spell(d, Text("\\")) == "'\\'"
  {
    assert "\\"[1..] == [];
    assert DoubleQuotes("\\", '\'') == "\\";
  }

  method InClause(d: Dialect, column: string, ghost f: FieldRef, values: seq<Value>, params: ParameterCollector, negate: bool)
    returns (r: Result<string, CompileError>)
    requires column == Delimit(f.field, d.QuoteChar()) && params.style == d.Style()
    modifies params
    ensures r == Ok(TextOf(d, MembershipPhrase(negate, f, |values|, |old(params.values)|)))
    ensures params.values == old(params.values) + values
  {
    if values == [] {
      assert Decimal(1) == "1" && Decimal(0) == "0";
      return Ok("1" + " " + "=" + " " + if negate then "1" else "0");
    }
    var placeholders := Placeholders(d, values, params);
    if negate {
      r := Ok(column + " " + "NOT" + " " + "IN" + " " + "(" + placeholders + ")");
    } else {
      r := Ok(column + " " + "IN" + " " + "(" + placeholders + ")");
    }
  }

  /** The placeholders of a non-empty list, joined by commas. */
  method Placeholders(d: Dialect, values: seq<Value>, params: ParameterCollector) returns (text: string)
    requires values != [] && params.style == d.Style()
    modifies params
    ensures text == TextOf(d, BindsPhrase(|old(params.values)|, |values|))
    ensures params.values == old(params.values) + values
    decreases |values|
  {
    if |values| == 1 {
      text := params.Add(values[0]);
    } else {
      var last := |values| - 1;
      ghost var before := params.values;
      text := Placeholders(d, values[..last], params);
      var placeholder := params.Add(values[last]);
      text := text + "," + " " + placeholder;
      AddedLast(before, values);
    }
  }

  lemma AddedLast(before: seq<Value>, values: seq<Value>)
    requires values != []
    ensures before + values[..|values| - 1] + [values[|values| - 1]] == before + values
  {
  }

  method Predicate(d: Dialect, p: Pred, params: ParameterCollector) returns (r: Result<string, CompileError>)
    requires params.style == d.Style()
    modifies params
    ensures Compiled(d, Fault(p), PredPhrase(p, |old(params.values)|), r)
    ensures r.Ok? ==> params.values == old(params.values) + PredValues(p)
    ensures old(params.values) <= params.values
    decreases p
  {
    match p
    case Bool(conjunction, operands) =>
      if operands == [] {
        return Ok("(" + ")");
      }
      var inner := Join(d, operands, Joiner(conjunction), params);
      if inner.Err? {
        return inner;
      }
      r := Ok("(" + inner.value + ")");
    case Not(operand) =>
      var inner := Predicate(d, operand, params);
      if inner.Err? {
        return inner;
      }
      r := Ok("(" + "NOT" + " " + inner.value + ")");
    case _ =>
      r := Comparison(d, p, params);
  }

  /** The predicates' texts joined by ` AND ` or ` OR `. */
  method Join(d: Dialect, ps: seq<Pred>, joiner: string, params: ParameterCollector)
    returns (r: Result<string, CompileError>)
    requires params.style == d.Style() && ps != []
    modifies params
    ensures Compiled(d, FaultIn(ps), JoinedPhrase(ps, joiner, |old(params.values)|), r)
    ensures r.Ok? ==> params.values == old(params.values) + ValuesIn(ps)
    ensures old(params.values) <= params.values
    decreases ps
  {
    hide TextOf, PredPhrase, Fault, PredValues;
    ghost var before := params.values;
    JoinFirst(ps);
    r := Predicate(d, ps[0], params);
    if r.Err? || |ps| == 1 {
      return r;
    }
    var rest := Join(d, ps[1..], joiner, params);
    if rest.Err? {
      return rest;
    }
    r := Ok(r.value + " " + joiner + " " + rest.value);
    JoinText(d, ps, joiner, |before|);
    AppendTwice(before, PredValues(ps[0]), ValuesIn(ps[1..]));
  }

  lemma JoinFirst(ps: seq<Pred>)
    requires ps != []
    ensures |ps| == 1 ==> FaultIn(ps) == Fault(ps[0]) && ValuesIn(ps) == PredValues(ps[0])
    ensures FaultIn(ps) == if Fault(ps[0]).Some? then Fault(ps[0]) else FaultIn(ps[1..])
    ensures ValuesIn(ps) == PredValues(ps[0]) + ValuesIn(ps[1..])
  {
    if |ps| == 1 {
      assert ps[1..] == [];
    }
  }

  lemma JoinText(d: Dialect, ps: seq<Pred>, joiner: string, n: nat)
    requires |ps| > 1
    ensures
      var rest := JoinedPhrase(ps[1..], joiner, n + |PredValues(ps[0])|);
      TextOf(d, JoinedPhrase(ps, joiner, n)) == TextOf(d, PredPhrase(ps[0], n)) + " " + joiner + " " + TextOf(d, rest)
  {
  }
}
