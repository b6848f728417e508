/**
  The predicate trees that the query builder produces and the way the reference engine evaluates
  them on a stored row.
 */
module Predicates {
  import opened Values

  type Row = map<string, Value>

  datatype CompareOp = Eq | Ne | Lt | Le | Gt | Ge

  datatype PatternOp = Contains | StartsWith | EndsWith | Like

  datatype NullOp = IsNull | IsNotNull | Exists

  datatype FieldRef = FieldRef(field: string, path: seq<string>)

  datatype Operand = Literal(value: Value) | Param(name: string)

  datatype Pred =
    | Compare(op: CompareOp, left: FieldRef, right: Operand)
    | Membership(negated: bool, left: FieldRef, values: seq<Value>)
    | Pattern(patternOp: PatternOp, left: FieldRef, right: Operand)
    | NullTest(nullOp: NullOp, left: FieldRef)
    | Bool(conjunction: bool, operands: seq<Pred>)
    | Not(operand: Pred)

  /** `TypeFault` is the TypeError of comparing or searching values of different kinds. */
  datatype EvalError = UnboundParam | TypeFault

  function FieldOf(row: Row, field: string): Value {
    if field in row then row[field] else Null
  }

  /** A path into a scalar column leads nowhere. */
  function FieldValue(row: Row, f: FieldRef): Value {
    if f.path == [] then FieldOf(row, f.field) else Null
  }

  function OrderTest(op: CompareOp, a: Value, b: Value): bool {
    match op
    case Eq => a == b
    case Ne => a != b
    case Lt => a != b && Leq(a, b)
    case Le => Leq(a, b)
    case Gt => a != b && Leq(b, a)
    case Ge => Leq(b, a)
  }

  predicate SameKind(a: Value, b: Value) {
    (a.Int? && b.Int?) || (a.Str? && b.Str?)
  }

  function Compared(op: CompareOp, value: Value, rhs: Value): Result<bool, EvalError> {
    if op.Eq? || op.Ne? then Ok(OrderTest(op, value, rhs))
    else if value.Null? then Ok(false)
    else if SameKind(value, rhs) then Ok(OrderTest(op, value, rhs))
    else Err(TypeFault)
  }

  predicate IsSubstring(v: string, s: string) {
    v <= s || (s != [] && IsSubstring(v, s[1..]))
  }

  predicate IsSuffix(v: string, s: string) {
    |v| <= |s| && s[|s| - |v|..] == v
  }

  /** The regular expression `^...$` that the engine builds from a LIKE pattern: `%` is `.*`, `_` is
      `.`, anything else stands for itself; `.` excludes the newline and `$` also matches just
      before a final one. */
  predicate RegexLike(s: string, pattern: string)
    decreases |s| + |pattern|
  {
    if pattern == [] then s == [] || s == ['\n']
    else if pattern[0] == '%' then
      RegexLike(s, pattern[1..]) || (s != [] && s[0] != '\n' && RegexLike(s[1..], pattern))
    else if pattern[0] == '_' then s != [] && s[0] != '\n' && RegexLike(s[1..], pattern[1..])
    else s != [] && s[0] == pattern[0] && RegexLike(s[1..], pattern[1..])
  }

  function PatternTest(op: PatternOp, s: string, v: string): bool {
    match op
    case Contains => IsSubstring(v, s)
    case StartsWith => v <= s
    case EndsWith => IsSuffix(v, s)
    case Like => RegexLike(s, v)
  }

  function PatternMatched(op: PatternOp, value: Value, rhs: Value): Result<bool, EvalError> {
    if value.Null? then Ok(false)
    else if value.Int? then (if op.Contains? then Err(TypeFault) else Ok(false))
    else if rhs.Str? then Ok(PatternTest(op, value.s, rhs.s))
    else Err(TypeFault)
  }

  /** All operands are evaluated before they are combined, so an error in any of them surfaces. */
  function Matches(row: Row, p: Pred): Result<bool, EvalError>
    decreases p
  {
    match p
    case Compare(op, left, right) =>
      if right.Param? then Err(UnboundParam) else Compared(op, FieldValue(row, left), right.value)
    case Membership(negated, left, values) =>
      Ok((FieldValue(row, left) in values) != negated)
    case Pattern(op, left, right) =>
      if right.Param? then Err(UnboundParam) else PatternMatched(op, FieldValue(row, left), right.value)
    case NullTest(op, left) =>
      Ok(FieldValue(row, left).Null? == op.IsNull?)
    case Bool(conjunction, operands) =>
      var results := MatchesEach(row, operands);
      if results.Err? then Err(results.error)
      else Ok(if conjunction then false !in results.value else true in results.value)
    case Not(operand) =>
      var r := Matches(row, operand);
      if r.Err? then r else Ok(!r.value)
  }

  function MatchesEach(row: Row, ps: seq<Pred>): (r: Result<seq<bool>, EvalError>)
    ensures r.Ok? ==> |r.value| == |ps|
    decreases ps
  {
    if ps == [] then Ok([])
    else
      var first := Matches(row, ps[0]);
      if first.Err? then Err(first.error)
      else
        var rest := MatchesEach(row, ps[1..]);
        if rest.Err? then Err(rest.error) else Ok([first.value] + rest.value)
  }

  /** A filter list stops at the first filter that fails. */
  function MatchesAll(row: Row, filters: seq<Pred>): Result<bool, EvalError> {
    if filters == [] then Ok(true)
    else
      var first := Matches(row, filters[0]);
      if first.Err? || !first.value then first else MatchesAll(row, filters[1..])
  }

  // ----- typed predicates -----

  datatype ColumnType = IntColumn | TextColumn

  type Schema = map<string, ColumnType>

  predicate OfType(v: Value, t: ColumnType) {
    v.Null? || (if t.IntColumn? then v.Int? else v.Str?)
  }

  predicate Conforms(row: Row, schema: Schema) {
    row.Keys == schema.Keys && forall c :: c in row ==> OfType(row[c], schema[c])
  }

  predicate TypedColumn(f: FieldRef, schema: Schema) {
    f.path == [] && f.field in schema
  }

  /** Columns exist, literals are bound and of the column's type, order comparisons and patterns
      have a non-null right side, membership lists hold no null, and no and/or is empty. */
  predicate Typed(p: Pred, schema: Schema) {
    match p
    case Compare(op, left, right) =>
      && TypedColumn(left, schema) && right.Literal? && OfType(right.value, schema[left.field])
      && (op.Eq? || op.Ne? || !right.value.Null?)
    case Membership(_, left, values) =>
      TypedColumn(left, schema) && forall v :: v in values ==> !v.Null? && OfType(v, schema[left.field])
    case Pattern(_, left, right) =>
      TypedColumn(left, schema) && schema[left.field].TextColumn? && right.Literal? && right.value.Str?
    case NullTest(_, left) => TypedColumn(left, schema)
    case Bool(_, operands) => operands != [] && forall o :: o in operands ==> Typed(o, schema)
    case Not(operand) => Typed(operand, schema)
  }

  /** On conforming rows a typed predicate evaluates without error. */
  lemma {:induction false} TypedNeverFaults(p: Pred, schema: Schema, row: Row)
    requires Typed(p, schema) && Conforms(row, schema)
    ensures Matches(row, p).Ok?
    decreases p
  {
    match p
    case Bool(_, operands) => EachNeverFaults(operands, schema, row);
    case Not(operand) => TypedNeverFaults(operand, schema, row);
    case Compare(_, left, _) => assert left.field in row;
    case Pattern(_, left, _) => assert left.field in row;
    case _ =>
  }

  lemma {:induction false} EachNeverFaults(ps: seq<Pred>, schema: Schema, row: Row)
    requires (forall p :: p in ps ==> Typed(p, schema)) && Conforms(row, schema)
    ensures MatchesEach(row, ps).Ok?
    ensures forall i :: 0 <= i < |ps| ==> Matches(row, ps[i]) == Ok(MatchesEach(row, ps).value[i])
    decreases ps
  {
    if ps != [] {
      TypedNeverFaults(ps[0], schema, row);
      EachNeverFaults(ps[1..], schema, row);
    }
  }

  /** A document path into a scalar column reads null. */
  lemma PathsReadNull(row: Row, f: FieldRef)
    ensures FieldValue(row, f) == if f.path == [] && f.field in row then row[f.field] else Null
  {
  }

  // ----- which evaluations fail -----

  /** A comparison fails for an unbound parameter, or where it would order values of different kinds, null on
      the right among them; a null on the left is ordered before nothing. */
  lemma CompareDecides(row: Row, op: CompareOp, left: FieldRef, right: Operand)
    ensures
      var r, value := Matches(row, Compare(op, left, right)), FieldValue(row, left);
      var ordering := !op.Eq? && !op.Ne?;
      && (r == Err(UnboundParam) <==> right.Param?)
      && (r == Err(TypeFault) <==>
           right.Literal? && ordering && !value.Null? && !(value.Int? && right.value.Int?) && !(value.Str? && right.value.Str?))
      && (right.Literal? && ordering && value.Null? ==> r == Ok(false))
      && (right.Literal? && op.Eq? ==> r == Ok(value == right.value)) && (right.Literal? && op.Ne? ==> r == Ok(value != right.value))
  {
  }

  lemma ComparesNumbers(row: Row, op: CompareOp, left: FieldRef, x: int, y: int)
    requires FieldValue(row, left) == Int(x)
    ensures Matches(row, Compare(op, left, Literal(Int(y)))) ==
      Ok(match op case Eq => x == y case Ne => x != y case Lt => x < y case Le => x <= y case Gt => x > y case Ge => x >= y)
  {
  }

  /** A pattern fails for an unbound parameter, for a number searched for a text, and for a text searched for
      something else; other numbers and nulls do not match. */
  lemma PatternDecides(row: Row, op: PatternOp, left: FieldRef, right: Operand)
    ensures
      var r, value := Matches(row, Pattern(op, left, right)), FieldValue(row, left);
      && (r == Err(UnboundParam) <==> right.Param?)
      && (r == Err(TypeFault) <==> right.Literal? && ((value.Int? && op.Contains?) || (value.Str? && !right.value.Str?)))
      && (right.Literal? && (value.Null? || (value.Int? && !op.Contains?)) ==> r == Ok(false))
  {
  }

  /** `contains`, `starts_with` and `ends_with` look for the text anywhere, at the front and at the back. */
  lemma PatternsFind(row: Row, left: FieldRef, s: string, v: string)
    requires FieldValue(row, left) == Str(s)
    ensures Matches(row, Pattern(Contains, left, Literal(Str(v)))) == Ok(exists a: string, b: string :: s == a + v + b)
    ensures Matches(row, Pattern(StartsWith, left, Literal(Str(v)))) == Ok(exists b: string :: s == v + b)
    ensures Matches(row, Pattern(EndsWith, left, Literal(Str(v)))) == Ok(exists a: string :: s == a + v)
  {
    hide IsSubstring;
    SubstringIs(v, s);
    if v <= s {
      assert s == v + s[|v|..];
    }
    if IsSuffix(v, s) {
      assert s == s[..|s| - |v|] + v;
    }
    if a: string :| s == a + v {
      assert s[|s| - |v|..] == v;
    }
  }

  lemma {:induction false} SubstringIs(v: string, s: string)
    ensures IsSubstring(v, s) <==> exists a: string, b: string :: s == a + v + b
  {
    if v <= s {
      assert s == [] + v + s[|v|..];
    } else if s != [] {
      SubstringIs(v, s[1..]);
      if a: string, b: string :| s[1..] == a + v + b {
        assert s == [s[0]] + a + v + b;
      }
      if a: string, b: string :| s == a + v + b {
        assert a == [] ==> s == v + b && v <= s;
        assert s[1..] == a[1..] + v + b;
      }
    }
  }

  /** A list of filters holds if each one does; it fails at the first one that fails, if all before it hold. */
  lemma {:induction false} MatchesAllDecides(row: Row, filters: seq<Pred>)
    ensures MatchesAll(row, filters) == Ok(true) <==> forall i :: 0 <= i < |filters| ==> Matches(row, filters[i]) == Ok(true)
    ensures forall e :: MatchesAll(row, filters) == Err(e) <==>
      exists i :: 0 <= i < |filters| && Matches(row, filters[i]) == Err(e) && forall j :: 0 <= j < i ==> Matches(row, filters[j]) == Ok(true)
  {
    if filters != [] {
      MatchesAllDecides(row, filters[1..]);
      var first := Matches(row, filters[0]);
      if first == Ok(true) {
        forall e ensures MatchesAll(row, filters) == Err(e) <==>
          exists i :: 0 <= i < |filters| && Matches(row, filters[i]) == Err(e) && forall j :: 0 <= j < i ==> Matches(row, filters[j]) == Ok(true)
        {
          if i :| 0 <= i < |filters| && Matches(row, filters[i]) == Err(e) && forall j :: 0 <= j < i ==> Matches(row, filters[j]) == Ok(true) {
            assert i > 0 && filters[1..][i - 1] == filters[i];
            forall j | 0 <= j < i - 1 ensures Matches(row, filters[1..][j]) == Ok(true) {
              assert filters[1..][j] == filters[j + 1];
            }
          }
          var rest := filters[1..];
          if i :| 0 <= i < |rest| && Matches(row, rest[i]) == Err(e) && forall j :: 0 <= j < i ==> Matches(row, rest[j]) == Ok(true) {
            forall j | 0 <= j < i + 1 ensures Matches(row, filters[j]) == Ok(true) {
              if j > 0 {
                assert rest[j - 1] == filters[j];
              }
            }
            assert Matches(row, filters[i + 1]) == Err(e);
          }
        }
      }
    }
  }

  lemma {:induction false} MatchesEachDecides(row: Row, ps: seq<Pred>)
    ensures MatchesEach(row, ps).Ok? <==> forall i :: 0 <= i < |ps| ==> Matches(row, ps[i]).Ok?
    ensures MatchesEach(row, ps).Ok? ==> forall i :: 0 <= i < |ps| ==> Matches(row, ps[i]) == Ok(MatchesEach(row, ps).value[i])
  {
    if ps != [] {
      MatchesEachDecides(row, ps[1..]);
      assert ps == [ps[0]] + ps[1..];
    }
  }

  /** `and` and `or` evaluate all their operands, and fail if any fails; `not` passes a failure on. */
  lemma ConnectivesDecide(row: Row, ps: seq<Pred>, p: Pred)
    ensures
      var conjunction, disjunction := Matches(row, Bool(true, ps)), Matches(row, Bool(false, ps));
      && (conjunction.Err? <==> exists i :: 0 <= i < |ps| && Matches(row, ps[i]).Err?) && (disjunction.Err? <==> conjunction.Err?)
      && (conjunction.Ok? ==> (conjunction.value <==> forall i :: 0 <= i < |ps| ==> Matches(row, ps[i]) == Ok(true)))
      && (disjunction.Ok? ==> (disjunction.value <==> exists i :: 0 <= i < |ps| && Matches(row, ps[i]) == Ok(true)))
    ensures Matches(row, Not(p)) == (match Matches(row, p) case Err(e) => Err(e) case Ok(b) => Ok(!b))
  {
    MatchesEachDecides(row, ps);
  }
}
