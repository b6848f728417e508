/**
  Compiling a predicate preserves its meaning: where the two agree, and where SQL's three-valued
  logic departs from the reference engine's two-valued one.
 */
module SqlAgreement {
  import opened Values
  import opened Predicates
  import opened SqlLike
  import opened SqlText
  import opened SqlSearch
  import opened SqlCompiler
  import opened SqlMeaning
  import opened SqlRoundTrip

  // ----- when the two logics agree -----

  /** Read positively, the condition is TRUE exactly when the predicate matches; read negatively, it
      is FALSE exactly when the predicate does not match. */
  predicate Agree(t: Truth, matches: bool, positive: bool) {
    !t.Fault? && (if positive then t.True? <==> matches else t.False? <==> !matches)
  }

  /** On a null column the engine's `!=` and `not in` hold and every other comparison fails, while
      SQL says UNKNOWN. That is harmless for `!=` and `not in` under an odd number of negations and
      for the others under an even number. Plain LIKE also needs a string without newline. */
  predicate Safe(p: Pred, row: Row, positive: bool)
    decreases p
  {
    match p
    case Compare(op, left, right) =>
      FieldOf(row, left.field).Null? && !ComparesToNull(op, ValueOf(right)) ==> op.Ne? != positive
    case Membership(negated, left, values) =>
      FieldOf(row, left.field).Null? && values != [] ==> negated != positive
    case Pattern(op, left, _) =>
      var v := FieldOf(row, left.field);
      (v.Null? ==> positive) && (op.Like? && v.Str? ==> '\n' !in v.s)
    case NullTest(_, _) => true
    case Bool(_, operands) => forall o :: o in operands ==> Safe(o, row, positive)
    case Not(operand) => Safe(operand, row, !positive)
  }

  /** The values of the predicate are bound from index `n` on. */
  predicate BoundAt(params: seq<Value>, n: nat, values: seq<Value>) {
    n + |values| <= |params| && params[n..n + |values|] == values
  }

  // ----- leaves -----

  lemma {:induction false} InMeansMembership(v: Value, t: ColumnType, values: seq<Value>)
    requires !v.Null? && OfType(v, t) && forall w :: w in values ==> !w.Null? && OfType(w, t)
    ensures In3(v, values) == Of(v in values)
  {
    if values != [] {
      InMeansMembership(v, t, values[1..]);
    }
  }

  lemma {:induction false} InOfNull(values: seq<Value>)
    requires values != []
    ensures In3(Null, values) == Unknown
  {
    if |values| > 1 {
      InOfNull(values[1..]);
    }
  }

  lemma {:induction false} ParameterValues(row: Row, params: seq<Value>, n: nat, values: seq<Value>)
    requires BoundAt(params, n, values)
    ensures TermValues(row, params, Parameters(n, |values|)) == values
    decreases values
  {
    if values != [] {
      var ts := Parameters(n, |values|);
      assert params[n] == params[n..n + |values|][0];
      assert params[n + 1..n + |values|] == values[1..];
      ParameterValues(row, params, n + 1, values[1..]);
      assert ts[1..] == Parameters(n + 1, |values| - 1);
    }
  }

  lemma CompareAgrees(row: Row, params: seq<Value>, p: Pred, n: nat, schema: Schema, positive: bool)
    requires p.Compare? && Typed(p, schema) && Conforms(row, schema) && BoundAt(params, n, PredValues(p))
    ensures Agree(Eval(row, params, LeafCond(p, n)), Matches(row, p).value, positive) <==> Safe(p, row, positive)
  {
    if !ComparesToNull(p.op, p.right.value) {
      assert params[n] == params[n..n + 1][0];
    }
    assert p.left.field in row;
  }

  lemma MembershipAgrees(row: Row, params: seq<Value>, p: Pred, n: nat, schema: Schema, positive: bool)
    requires p.Membership? && Typed(p, schema) && Conforms(row, schema) && BoundAt(params, n, PredValues(p))
    ensures Agree(Eval(row, params, LeafCond(p, n)), Matches(row, p).value, positive) <==> Safe(p, row, positive)
  {
    var v := FieldOf(row, p.left.field);
    assert p.left.field in row;
    if p.values != [] {
      ParameterValues(row, params, n, p.values);
      if v.Null? {
        InOfNull(p.values);
      } else {
        InMeansMembership(v, schema[p.left.field], p.values);
      }
    }
  }

  lemma PatternAgrees(row: Row, params: seq<Value>, p: Pred, n: nat, schema: Schema, positive: bool)
    requires p.Pattern? && Typed(p, schema) && Conforms(row, schema) && BoundAt(params, n, PredValues(p))
    ensures Safe(p, row, positive) ==> Agree(Eval(row, params, LeafCond(p, n)), Matches(row, p).value, positive)
    ensures !p.patternOp.Like? ==>
      (Agree(Eval(row, params, LeafCond(p, n)), Matches(row, p).value, positive) <==> Safe(p, row, positive))
  {
    var v := FieldOf(row, p.left.field);
    assert p.left.field in row;
    assert params[n] == params[n..n + 1][0] == PredValues(p)[0];
    if v.Str? {
      if p.patternOp.Like? {
        if '\n' !in v.s {
          RegexIsLike(v.s, p.right.value.s);
        }
      } else {
        EscapingIsExact(p.patternOp, p.right.value.s, v.s);
      }
    }
  }

  /** On a single comparison the condition is exact: the logics agree if and only if it is safe.
      (For plain LIKE the text of the column decides; see LikesAgreeIffNoNewline.) */
  lemma LeafAgrees(row: Row, params: seq<Value>, p: Pred, n: nat, schema: Schema, positive: bool)
    requires !p.Bool? && !p.Not?
    requires Typed(p, schema) && Conforms(row, schema) && BoundAt(params, n, PredValues(p))
    ensures Safe(p, row, positive) ==> Agree(Eval(row, params, LeafCond(p, n)), Matches(row, p).value, positive)
    ensures !(p.Pattern? && p.patternOp.Like?) ==>
      (Agree(Eval(row, params, LeafCond(p, n)), Matches(row, p).value, positive) <==> Safe(p, row, positive))
  {
    match p
    case Compare(_, _, _) => CompareAgrees(row, params, p, n, schema, positive);
    case Membership(_, _, _) => MembershipAgrees(row, params, p, n, schema, positive);
    case Pattern(_, _, _) => PatternAgrees(row, params, p, n, schema, positive);
    case NullTest(_, left) => assert left.field in row;
  }

  // ----- trees -----

  lemma {:induction false} TypedIsGrounded(p: Pred, schema: Schema)
    requires Typed(p, schema)
    ensures Grounded(p)
    decreases p
  {
    match p
    case Bool(_, operands) =>
      forall o | o in operands ensures Grounded(o) {
        TypedIsGrounded(o, schema);
      }
    case Not(operand) => TypedIsGrounded(operand, schema);
    case _ =>
  }

  lemma BoundSplit(params: seq<Value>, n: nat, a: seq<Value>, b: seq<Value>)
    requires BoundAt(params, n, a + b)
    ensures BoundAt(params, n, a) && BoundAt(params, n + |a|, b)
  {
    var all := params[n..n + |a + b|];
    assert params[n..n + |a|] == all[..|a|] == a;
    assert params[n + |a|..n + |a| + |b|] == all[|a|..] == b;
  }

  /** The compiled condition agrees with the predicate on every row on which it is safe. */
  lemma {:induction false} PredAgrees(row: Row, params: seq<Value>, p: Pred, n: nat, schema: Schema, positive: bool)
    requires Typed(p, schema) && Conforms(row, schema) && BoundAt(params, n, PredValues(p))
    requires Safe(p, row, positive)
    ensures Grounded(p) && Matches(row, p).Ok?
    ensures Agree(Eval(row, params, CondOf(p, n)), Matches(row, p).value, positive)
    decreases p
  {
    TypedIsGrounded(p, schema);
    TypedNeverFaults(p, schema, row);
    match p
    case Bool(conjunction, operands) =>
      JoinedAgrees(row, params, operands, conjunction, n, schema, positive);
      EachNeverFaults(operands, schema, row);
    case Not(operand) =>
      PredAgrees(row, params, operand, n, schema, !positive);
    case _ =>
      LeafAgrees(row, params, p, n, schema, positive);
  }

  function Combine(conjunction: bool, results: seq<bool>): bool {
    if conjunction then false !in results else true in results
  }

  lemma {:induction false} JoinedAgrees(row: Row, params: seq<Value>, ps: seq<Pred>, conjunction: bool, n: nat,
                                        schema: Schema, positive: bool)
    requires ps != [] && (forall p :: p in ps ==> Typed(p, schema) && Safe(p, row, positive))
    requires Conforms(row, schema) && BoundAt(params, n, ValuesIn(ps))
    ensures (forall p :: p in ps ==> Grounded(p)) && MatchesEach(row, ps).Ok?
    ensures Agree(Eval(row, params, JoinedCond(ps, conjunction, n)), Combine(conjunction, MatchesEach(row, ps).value), positive)
    decreases ps
  {
    JoinFirst(ps);
    EachNeverFaults(ps, schema, row);
    forall p | p in ps ensures Grounded(p) {
      TypedIsGrounded(p, schema);
    }
    BoundSplit(params, n, PredValues(ps[0]), ValuesIn(ps[1..]));
    PredAgrees(row, params, ps[0], n, schema, positive);
    var first := Matches(row, ps[0]).value;
    if |ps| == 1 {
      assert ps[1..] == [] && MatchesEach(row, ps).value == [first];
    } else {
      var n' := n + |PredValues(ps[0])|;
      JoinedAgrees(row, params, ps[1..], conjunction, n', schema, positive);
      var more := MatchesEach(row, ps[1..]).value;
      assert MatchesEach(row, ps).value == [first] + more;
      CombineAgrees(Eval(row, params, CondOf(ps[0], n)), first,
                    Eval(row, params, JoinedCond(ps[1..], conjunction, n')), more, conjunction, positive);
    }
  }

  lemma CombineAgrees(t: Truth, b: bool, u: Truth, results: seq<bool>, conjunction: bool, positive: bool)
    requires Agree(t, b, positive) && Agree(u, Combine(conjunction, results), positive)
    ensures Agree(if conjunction then And3(t, u) else Or3(t, u), Combine(conjunction, [b] + results), positive)
  {
  }

  // ----- the two fragments -----

  /** No plain LIKE meets a newline. */
  predicate NewlineFree(p: Pred, row: Row)
    decreases p
  {
    match p
    case Bool(_, operands) => forall o :: o in operands ==> NewlineFree(o, row)
    case Not(operand) => NewlineFree(operand, row)
    case Pattern(op, left, _) =>
      var v := FieldOf(row, left.field);
      op.Like? && v.Str? ==> '\n' !in v.s
    case _ => true
  }

  /** No column the predicate compares is null. */
  predicate ReadsNoNull(p: Pred, row: Row)
    decreases p
  {
    match p
    case Bool(_, operands) => forall o :: o in operands ==> ReadsNoNull(o, row)
    case Not(operand) => ReadsNoNull(operand, row)
    case NullTest(_, _) => true
    case Compare(_, left, _) => !FieldOf(row, left.field).Null?
    case Membership(_, left, _) => !FieldOf(row, left.field).Null?
    case Pattern(_, left, _) => !FieldOf(row, left.field).Null?
  }

  lemma {:induction false} NoNullIsSafe(p: Pred, row: Row, positive: bool)
    requires ReadsNoNull(p, row) && NewlineFree(p, row)
    ensures Safe(p, row, positive)
    decreases p
  {
    match p
    case Bool(_, operands) =>
      forall o | o in operands ensures Safe(o, row, positive) {
        NoNullIsSafe(o, row, positive);
      }
    case Not(operand) => NoNullIsSafe(operand, row, !positive);
    case _ =>
  }

  /** On a row without nulls the condition is never UNKNOWN: it is the predicate's own verdict. */
  lemma AgreesWithoutNulls(row: Row, params: seq<Value>, p: Pred, n: nat, schema: Schema)
    requires Typed(p, schema) && Conforms(row, schema) && BoundAt(params, n, PredValues(p))
    requires ReadsNoNull(p, row) && NewlineFree(p, row)
    ensures Grounded(p) && Matches(row, p).Ok?
    ensures Eval(row, params, CondOf(p, n)) == Of(Matches(row, p).value)
  {
    NoNullIsSafe(p, row, true);
    NoNullIsSafe(p, row, false);
    PredAgrees(row, params, p, n, schema, true);
    PredAgrees(row, params, p, n, schema, false);
  }

  /** Neither a negation nor `!=` nor `not in`. */
  predicate NegationFree(p: Pred)
    decreases p
  {
    match p
    case Compare(op, _, right) => op.Ne? ==> right.Literal? && right.value.Null?
    case Membership(negated, _, values) => negated ==> values == []
    case Pattern(_, _, _) => true
    case NullTest(_, _) => true
    case Bool(_, operands) => forall o :: o in operands ==> NegationFree(o)
    case Not(_) => false
  }

  lemma {:induction false} NegationFreeIsSafe(p: Pred, row: Row)
    requires NegationFree(p) && NewlineFree(p, row)
    ensures Safe(p, row, true)
    decreases p
  {
    if p.Bool? {
      forall o | o in p.operands ensures Safe(o, row, true) {
        NegationFreeIsSafe(o, row);
      }
    }
  }

  // ----- the WHERE clause -----

  lemma {:induction false} MatchesAllIsConjunction(row: Row, ps: seq<Pred>, schema: Schema)
    requires (forall p :: p in ps ==> Typed(p, schema)) && Conforms(row, schema)
    ensures MatchesEach(row, ps).Ok?
    ensures MatchesAll(row, ps) == Ok(Combine(true, MatchesEach(row, ps).value))
  {
    EachNeverFaults(ps, schema, row);
    if ps != [] {
      MatchesAllIsConjunction(row, ps[1..], schema);
    }
  }

  /** The compiled WHERE condition, lexed and parsed as SQL whatever clause follows it, is TRUE on a
      row exactly when the engine's filters match the row. */
  lemma WherePreservesMeaning(d: Dialect, filters: seq<Pred>, schema: Schema, row: Row, rest: seq<Token>)
    requires filters != [] && (forall p :: p in filters ==> Typed(p, schema) && Safe(p, row, true))
    requires Conforms(row, schema) && Stops(rest)
    ensures
      var ts := Lex(d, TextOf(d, JoinedPhrase(filters, "AND", 0)), 0);
      var parsed := ParseOr(ts + rest);
      && parsed.Some? && parsed.value.1 == rest
      && (Eval(row, ValuesIn(filters), parsed.value.0).True? <==> MatchesAll(row, filters) == Ok(true))
  {
    JoinedAligned(filters, "AND", 0);
    LexPhrase(d, JoinedPhrase(filters, "AND", 0), 0);
    forall p | p in filters ensures Grounded(p) {
      TypedIsGrounded(p, schema);
    }
    JoinedParses(filters, true, 0, rest);
    assert ValuesIn(filters)[0..0 + |ValuesIn(filters)|] == ValuesIn(filters);
    JoinedAgrees(row, ValuesIn(filters), filters, true, 0, schema, true);
    MatchesAllIsConjunction(row, filters, schema);
  }

  /** Without `not`, `!=` and `not in` the clause is exact on every row, nulls included, on which
      no plain LIKE meets a newline. */
  lemma NegationFreeWhere(d: Dialect, filters: seq<Pred>, schema: Schema, row: Row, rest: seq<Token>)
    requires filters != [] && (forall p :: p in filters ==> Typed(p, schema) && NegationFree(p) && NewlineFree(p, row))
    requires Conforms(row, schema) && Stops(rest)
    ensures
      var ts := Lex(d, TextOf(d, JoinedPhrase(filters, "AND", 0)), 0);
      var parsed := ParseOr(ts + rest);
      && parsed.Some? && parsed.value.1 == rest
      && (Eval(row, ValuesIn(filters), parsed.value.0).True? <==> MatchesAll(row, filters) == Ok(true))
  {
    forall p | p in filters ensures Safe(p, row, true) {
      NegationFreeIsSafe(p, row);
    }
    WherePreservesMeaning(d, filters, schema, row, rest);
  }

  // ----- what fails outside the condition -----

  /** `not (c == 1)` on a null column: the engine matches the row, SQL does not select it. */
  lemma NegatedEqualityDiffersOnNull(d: Dialect)
    ensures
      var p := Not(Compare(Eq, FieldRef("c", []), Literal(Int(1))));
      var row: Row := map["c" := Null];
      Matches(row, p) == Ok(true) && Eval(row, PredValues(p), CondOf(p, 0)) == Unknown
  {
    var p := Not(Compare(Eq, FieldRef("c", []), Literal(Int(1))));
    var row: Row := map["c" := Null];
    assert FieldOf(row, "c") == Null;
    assert Eval(row, PredValues(p), CondOf(p.operand, 0)) == Unknown;
  }

  /** An and/or without operands compiles to `()`, which no SQL parser accepts. */
  lemma EmptyOperandsDoNotParse(d: Dialect, conjunction: bool, rest: seq<Token>)
    ensures
      var ts := Lex(d, TextOf(d, PredPhrase(Bool(conjunction, []), 0)), 0);
      ts == [Punct('('), Punct(')')] && ParseOr(ts + rest).None?
  {
    var p := Bool(conjunction, []);
    PredAligned(p, 0);
    LexPhrase(d, PredPhrase(p, 0), 0);
    TTokens(Punct('('));
    TTokens(Punct(')'));
    AppendTokens(T(Punct('(')), T(Punct(')')));
    NothingInside(rest);
    FactorFails([Punct('('), Punct(')')] + rest);
  }
}
