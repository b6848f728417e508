/**
  SQL search conditions: their grammar with the usual precedence (NOT, then AND, then OR) and their
  three-valued meaning, after sections 8.2, 8.4, 8.5, 8.6 and 8.12 of ISO/IEC 9075:1992.
 */
module SqlSearch {
  import opened Values
  import opened Predicates
  import opened SqlLike
  import opened SqlText

  datatype Term = Column(name: string) | Parameter(index: nat) | Constant(n: nat)

  datatype Cond =
    | OrElse(l: Cond, r: Cond)
    | AndAlso(l: Cond, r: Cond)
    | Negation(c: Cond)
    | Comparison(symbol: string, lhs: Term, rhs: Term)
    | NullCheck(lhs: Term, negated: bool)
    | InList(lhs: Term, items: seq<Term>, negated: bool)
    | LikeCheck(lhs: Term, pattern: Term, escape: Option<string>)

  // ----- grammar -----

  function ParseTerm(t: Token): Option<Term> {
    match t
    case Ident(name) => Some(Column(name))
    case Bind(i) => Some(Parameter(i))
    case Number(n) => Some(Constant(n))
    case _ => None
  }

  /** One or more terms separated by commas, up to the closing parenthesis. */
  function ParseTerms(ts: seq<Token>): (r: Option<(seq<Term>, seq<Token>)>)
    ensures r.Some? ==> |r.value.1| < |ts|
  {
    if |ts| < 2 || ParseTerm(ts[0]).None? then None
    else
      var first := ParseTerm(ts[0]).value;
      if ts[1] == Punct(')') then Some(([first], ts[2..]))
      else if ts[1] == Punct(',') then
        var r := ParseTerms(ts[2..]);
        if r.None? then None else Some(([first] + r.value.0, r.value.1))
      else None
  }

  function ParseIn(lhs: Term, ts: seq<Token>, negated: bool): (r: Option<(Cond, seq<Token>)>)
    ensures r.Some? ==> |r.value.1| < |ts|
  {
    if ts == [] || ts[0] != Punct('(') then None
    else
      var r := ParseTerms(ts[1..]);
      if r.None? then None else Some((InList(lhs, r.value.0, negated), r.value.1))
  }

  /** What may follow the first term of a predicate. */
  function ParsePredicateTail(lhs: Term, ts: seq<Token>): (r: Option<(Cond, seq<Token>)>)
    ensures r.Some? ==> |r.value.1| < |ts|
  {
    if |ts| < 2 then None
    else if ts[0].Op? then
      var rhs := ParseTerm(ts[1]);
      if rhs.None? then None else Some((Comparison(ts[0].symbol, lhs, rhs.value), ts[2..]))
    else if ts[0] == Keyword("IS") then
      if ts[1] == Keyword("NULL") then Some((NullCheck(lhs, false), ts[2..]))
      else if |ts| > 2 && ts[1] == Keyword("NOT") && ts[2] == Keyword("NULL") then
        Some((NullCheck(lhs, true), ts[3..]))
      else None
    else if ts[0] == Keyword("IN") then ParseIn(lhs, ts[1..], false)
    else if ts[0] == Keyword("NOT") && ts[1] == Keyword("IN") then ParseIn(lhs, ts[2..], true)
    else if ts[0] == Keyword("LIKE") then
      var pattern := ParseTerm(ts[1]);
      if pattern.None? then None
      else if |ts| > 3 && ts[2] == Keyword("ESCAPE") && ts[3].Text? then
        Some((LikeCheck(lhs, pattern.value, Some(ts[3].text)), ts[4..]))
      else Some((LikeCheck(lhs, pattern.value, None), ts[2..]))
    else None
  }

  function ParseFactor(ts: seq<Token>): (r: Option<(Cond, seq<Token>)>)
    ensures r.Some? ==> |r.value.1| < |ts|
    decreases |ts|, 0
  {
    if ts == [] then None
    else if ts[0] == Keyword("NOT") then
      var r := ParseFactor(ts[1..]);
      if r.None? then None else Some((Negation(r.value.0), r.value.1))
    else if ts[0] == Punct('(') then
      var r := ParseOr(ts[1..]);
      if r.None? || r.value.1 == [] || r.value.1[0] != Punct(')') then None
      else Some((r.value.0, r.value.1[1..]))
    else
      var lhs := ParseTerm(ts[0]);
      if lhs.None? then None else ParsePredicateTail(lhs.value, ts[1..])
  }

  function ParseAnd(ts: seq<Token>): (r: Option<(Cond, seq<Token>)>)
    ensures r.Some? ==> |r.value.1| < |ts|
    decreases |ts|, 1
  {
    var first := ParseFactor(ts);
    if first.None? then None
    else if first.value.1 != [] && first.value.1[0] == Keyword("AND") then
      var rest := ParseAnd(first.value.1[1..]);
      if rest.None? then None else Some((AndAlso(first.value.0, rest.value.0), rest.value.1))
    else first
  }

  function ParseOr(ts: seq<Token>): (r: Option<(Cond, seq<Token>)>)
    ensures r.Some? ==> |r.value.1| < |ts|
    decreases |ts|, 2
  {
    var first := ParseAnd(ts);
    if first.None? then None
    else if first.value.1 != [] && first.value.1[0] == Keyword("OR") then
      var rest := ParseOr(first.value.1[1..]);
      if rest.None? then None else Some((OrElse(first.value.0, rest.value.0), rest.value.1))
    else first
  }

  // ----- meaning -----

  /** `Fault` is the exception of comparing values of different kinds or of a bad LIKE pattern. */
  datatype Truth = True | False | Unknown | Fault

  function Of(b: bool): Truth { if b then True else False }

  function Not3(a: Truth): Truth {
    match a
    case True => False
    case False => True
    case _ => a
  }

  function And3(a: Truth, b: Truth): Truth {
    if a.Fault? || b.Fault? then Fault
    else if a.False? || b.False? then False
    else if a.Unknown? || b.Unknown? then Unknown
    else True
  }

  function Or3(a: Truth, b: Truth): Truth { Not3(And3(Not3(a), Not3(b))) }

  function TermValue(row: Row, params: seq<Value>, t: Term): Value {
    match t
    case Column(name) => FieldOf(row, name)
    case Parameter(i) => if i < |params| then params[i] else Null
    case Constant(n) => Int(n)
  }

  function Compare3(symbol: string, a: Value, b: Value): Truth {
    if a.Null? || b.Null? then Unknown
    else if !SameKind(a, b) then Fault
    else if symbol == "=" then Of(a == b)
    else if symbol == "<>" then Of(a != b)
    else if symbol == "<" then Of(a != b && Leq(a, b))
    else if symbol == "<=" then Of(Leq(a, b))
    else if symbol == ">" then Of(a != b && Leq(b, a))
    else if symbol == ">=" then Of(Leq(b, a))
    else Fault
  }

  /** `x IN (...)` is `x = ANY (...)`. */
  function In3(a: Value, items: seq<Value>): Truth {
    if items == [] then False else Or3(Compare3("=", a, items[0]), In3(a, items[1..]))
  }

  function Like3(a: Value, pattern: Value, escape: Option<string>): Truth {
    if a.Null? || pattern.Null? then Unknown
    else if a.Int? || pattern.Int? || (escape.Some? && |escape.value| != 1) then Fault
    else
      var e := if escape.Some? then Some(escape.value[0]) else None;
      if WellFormedPattern(pattern.s, e) then Of(SqlLike.SqlLike(a.s, pattern.s, e)) else Fault
  }

  function TermValues(row: Row, params: seq<Value>, ts: seq<Term>): seq<Value> {
    if ts == [] then [] else [TermValue(row, params, ts[0])] + TermValues(row, params, ts[1..])
  }

  function Eval(row: Row, params: seq<Value>, c: Cond): Truth {
    match c
    case OrElse(l, r) => Or3(Eval(row, params, l), Eval(row, params, r))
    case AndAlso(l, r) => And3(Eval(row, params, l), Eval(row, params, r))
    case Negation(d) => Not3(Eval(row, params, d))
    case Comparison(symbol, l, r) => Compare3(symbol, TermValue(row, params, l), TermValue(row, params, r))
    case NullCheck(l, negated) => Of(TermValue(row, params, l).Null? != negated)
    case InList(l, items, negated) =>
      var t := In3(TermValue(row, params, l), TermValues(row, params, items));
      if negated then Not3(t) else t
    case LikeCheck(l, pattern, escape) =>
      Like3(TermValue(row, params, l), TermValue(row, params, pattern), escape)
  }

  // ----- the columns a condition names -----

  predicate TermKnown(t: Term, columns: set<string>) {
    t.Column? ==> t.name in columns
  }

  predicate CondKnown(c: Cond, columns: set<string>) {
    match c
    case OrElse(l, r) => CondKnown(l, columns) && CondKnown(r, columns)
    case AndAlso(l, r) => CondKnown(l, columns) && CondKnown(r, columns)
    case Negation(d) => CondKnown(d, columns)
    case Comparison(_, l, r) => TermKnown(l, columns) && TermKnown(r, columns)
    case NullCheck(l, _) => TermKnown(l, columns)
    case InList(l, items, _) => TermKnown(l, columns) && forall t :: t in items ==> TermKnown(t, columns)
    case LikeCheck(l, pattern, _) => TermKnown(l, columns) && TermKnown(pattern, columns)
  }
}
