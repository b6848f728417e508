/**
  The layout of compiled text: the condition each predicate stands for, the value each placeholder of
  it binds, and the fact that every phrase the compiler writes is spaced so that it can be read back,
  with exactly as many placeholders as it collects values, numbered in the order in which they occur
  from left to right.
 */
module SqlMeaning {
  import opened Values
  import opened Predicates
  import opened SqlText
  import opened SqlSearch
  import opened SqlCompiler

  // ----- the condition a predicate stands for -----

  /** No and/or is without operands. */
  predicate Grounded(p: Pred)
    decreases p
  {
    match p
    case Bool(_, operands) => operands != [] && forall o :: o in operands ==> Grounded(o)
    case Not(operand) => Grounded(operand)
    case _ => true
  }

  function Parameters(n: nat, count: nat): (r: seq<Term>)
    ensures |r| == count && forall i :: 0 <= i < count ==> r[i] == Parameter(n + i)
  {
    seq(count, i requires 0 <= i => Parameter(n + i))
  }

  function LeafCond(p: Pred, n: nat): Cond
    requires !p.Bool? && !p.Not?
  {
    var column := Column(p.left.field);
    match p
    case Compare(op, _, right) =>
      if ComparesToNull(op, ValueOf(right)) then NullCheck(column, op.Ne?)
      else SqlSearch.Comparison(Symbol(op), column, Parameter(n))
    case Membership(negated, _, values) =>
      if values == [] then SqlSearch.Comparison("=", Constant(1), Constant(if negated then 1 else 0))
      else InList(column, Parameters(n, |values|), negated)
    case Pattern(op, _, _) => LikeCheck(column, Parameter(n), if op.Like? then None else Some("\\"))
    case NullTest(op, _) => NullCheck(column, !op.IsNull?)
  }

  function CondOf(p: Pred, n: nat): Cond
    requires Grounded(p)
    decreases p
  {
    match p
    case Bool(conjunction, operands) => JoinedCond(operands, conjunction, n)
    case Not(operand) => Negation(CondOf(operand, n))
    case _ => LeafCond(p, n)
  }

  function JoinedCond(ps: seq<Pred>, conjunction: bool, n: nat): Cond
    requires ps != [] && forall p :: p in ps ==> Grounded(p)
    decreases ps
  {
    if |ps| == 1 then CondOf(ps[0], n)
    else
      var first, rest := CondOf(ps[0], n), JoinedCond(ps[1..], conjunction, n + |PredValues(ps[0])|);
      if conjunction then AndAlso(first, rest) else OrElse(first, rest)
  }

  // ----- the fields a predicate names -----

  /** Every field compiled to a column is one of these; an empty membership names none. */
  predicate FieldsKnown(p: Pred, columns: set<string>) {
    match p
    case Bool(_, operands) => forall o :: o in operands ==> FieldsKnown(o, columns)
    case Not(operand) => FieldsKnown(operand, columns)
    case Membership(_, left, values) => values == [] || left.field in columns
    case _ => p.left.field in columns
  }

  lemma {:induction false} CondNamesTheFields(p: Pred, n: nat, columns: set<string>)
    requires Grounded(p)
    ensures CondKnown(CondOf(p, n), columns) <==> FieldsKnown(p, columns)
    decreases p
  {
    match p
    case Bool(conjunction, operands) => JoinedNamesTheFields(operands, conjunction, n, columns);
    case Not(operand) => CondNamesTheFields(operand, n, columns);
    case Membership(_, _, values) => ParametersNameNothing(n, |values|, columns);
    case _ =>
  }

  lemma {:induction false} JoinedNamesTheFields(ps: seq<Pred>, conjunction: bool, n: nat, columns: set<string>)
    requires ps != [] && forall p :: p in ps ==> Grounded(p)
    ensures CondKnown(JoinedCond(ps, conjunction, n), columns) <==> forall p :: p in ps ==> FieldsKnown(p, columns)
    decreases ps
  {
    CondNamesTheFields(ps[0], n, columns);
    if |ps| > 1 {
      JoinedNamesTheFields(ps[1..], conjunction, n + |PredValues(ps[0])|, columns);
      assert ps == [ps[0]] + ps[1..];
    }
  }

  lemma {:induction false} ParametersNameNothing(n: nat, count: nat, columns: set<string>)
    ensures forall t :: t in Parameters(n, count) ==> TermKnown(t, columns)
    decreases count
  {
    if count > 0 {
      ParametersNameNothing(n + 1, count - 1, columns);
    }
  }

  // ----- the text is well spaced and its placeholders are in order -----

  function BindTokens(n: nat, count: nat): seq<Token>
    requires count > 0
    decreases count
  {
    [Bind(n)] + if count == 1 then [] else [Punct(',')] + BindTokens(n + 1, count - 1)
  }

  lemma {:induction false} BindTokensAppend(n: nat, count: nat)
    requires count > 0
    ensures BindTokens(n, count + 1) == BindTokens(n, count) + [Punct(','), Bind(n + count)]
    decreases count
  {
    if count > 1 {
      BindTokensAppend(n + 1, count - 1);
      assert [Bind(n)] + ([Punct(',')] + (BindTokens(n + 1, count - 1) + [Punct(','), Bind(n + count)]))
        == [Bind(n)] + ([Punct(',')] + BindTokens(n + 1, count - 1)) + [Punct(','), Bind(n + count)];
    }
  }

  lemma {:induction false} BindsPhraseTokens(n: nat, count: nat)
    requires count > 0
    ensures Tokens(BindsPhrase(n, count)) == BindTokens(n, count)
    ensures Spaced(BindsPhrase(n, count))
  {
    TTokens(Bind(n));
    if count > 1 {
      BindsPhraseTokens(n, count - 1);
      TTokens(Punct(','));
      AppendTokens(BindsPhrase(n, count - 1), T(Punct(',')));
      ThenTokens(Append(BindsPhrase(n, count - 1), T(Punct(','))), Bind(n + count - 1));
      BindTokensAppend(n, count - 1);
      assert [Punct(',')] + [Bind(n + count - 1)] == [Punct(','), Bind(n + count - 1)];
    }
  }

  lemma {:induction false} BindTokensInOrder(n: nat, count: nat)
    requires count > 0
    ensures InOrder(BindTokens(n, count), n) && Bound(BindTokens(n, count)) == count
    decreases count
  {
    if count > 1 {
      BindTokensInOrder(n + 1, count - 1);
      var rest := BindTokens(n + 1, count - 1);
      assert ([Bind(n)] + ([Punct(',')] + rest))[1..] == [Punct(',')] + rest;
      assert ([Punct(',')] + rest)[1..] == rest;
    }
  }

  /** Well spaced, with exactly `count` placeholders, numbered from `n`. */
  ghost predicate Aligned(p: Phrase, n: nat, count: nat) {
    Spaced(p) && InOrder(Tokens(p), n) && Bound(Tokens(p)) == count
  }

  lemma AppendAligned(l: Phrase, r: Phrase, n: nat, lCount: nat, rCount: nat)
    requires Aligned(l, n, lCount) && Aligned(r, n + lCount, rCount)
    requires Neutral(Last(l)) || Neutral(First(r))
    ensures Aligned(Append(l, r), n, lCount + rCount)
  {
    hide Tokens, Spaced, Append, First, Last, Neutral;
    AppendTokens(l, r);
    InOrderConcat(Tokens(l), Tokens(r), n);
  }

  lemma ThenAligned(l: Phrase, t: Token, n: nat, count: nat)
    requires Aligned(l, n, count) && Printable(t) && (t.Bind? ==> t.index == n + count)
    ensures Aligned(Then(l, t), n, count + if t.Bind? then 1 else 0)
    ensures Aligned(Sp(l), n, count)
  {
    ThenTokens(l, t);
    InOrderConcat(Tokens(l), [t], n);
    assert [t][1..] == [];
  }

  lemma TokenAligned(t: Token, n: nat)
    requires Printable(t) && (t.Bind? ==> t.index == n)
    ensures Aligned(T(t), n, if t.Bind? then 1 else 0)
  {
    TTokens(t);
    assert [t][1..] == [];
  }

  lemma ParensAligned(open: Phrase, inner: Phrase, n: nat, count: nat)
    requires Aligned(open, n, 0) && Neutral(Last(open)) && Aligned(inner, n, count)
    ensures Aligned(Close(Append(open, inner)), n, count)
  {
    TTokens(Punct(')'));
    AppendAligned(open, inner, n, 0, count);
    TokenAligned(Punct(')'), n + count);
    AppendAligned(Append(open, inner), T(Punct(')')), n, count, 0);
  }

  lemma NullAligned(f: FieldRef, negated: bool, n: nat)
    ensures Aligned(NullPhrase(f, negated), n, 0)
  {
    var tested := Then(ColumnPhrase(f), Keyword("IS"));
    TokenAligned(Ident(f.field), n);
    ThenAligned(ColumnPhrase(f), Keyword("IS"), n, 0);
    ThenAligned(tested, Keyword("NULL"), n, 0);
    ThenAligned(tested, Keyword("NOT"), n, 0);
    ThenAligned(Then(tested, Keyword("NOT")), Keyword("NULL"), n, 0);
  }

  lemma LeafAligned(p: Pred, n: nat)
    requires !p.Bool? && !p.Not?
    ensures Aligned(PredPhrase(p, n), n, |PredValues(p)|)
  {
    var column := ColumnPhrase(p.left);
    TokenAligned(Ident(p.left.field), n);
    NullAligned(p.left, true, n);
    NullAligned(p.left, false, n);
    match p
    case Compare(op, _, _) =>
      ThenAligned(column, Op(Symbol(op)), n, 0);
      ThenAligned(Then(column, Op(Symbol(op))), Bind(n), n, 0);
    case Pattern(op, _, _) =>
      ThenAligned(column, Keyword("LIKE"), n, 0);
      ThenAligned(Then(column, Keyword("LIKE")), Bind(n), n, 0);
      var like := Then(Then(column, Keyword("LIKE")), Bind(n));
      ThenAligned(like, Keyword("ESCAPE"), n, 1);
      ThenAligned(Then(like, Keyword("ESCAPE")), Text("\\"), n, 1);
    case Membership(negated, left, values) =>
      MembershipAligned(negated, left, |values|, n);
    case _ =>
  }

  lemma MembershipAligned(negated: bool, f: FieldRef, count: nat, n: nat)
    ensures Aligned(MembershipPhrase(negated, f, count, n), n, count)
  {
    if count == 0 {
      TokenAligned(Number(1), n);
      ThenAligned(T(Number(1)), Op("="), n, 0);
      ThenAligned(Then(T(Number(1)), Op("=")), Number(if negated then 1 else 0), n, 0);
    } else {
      TokenAligned(Ident(f.field), n);
      ThenAligned(ColumnPhrase(f), Keyword("NOT"), n, 0);
      var column := if negated then Then(ColumnPhrase(f), Keyword("NOT")) else ColumnPhrase(f);
      ThenAligned(column, Keyword("IN"), n, 0);
      ThenAligned(Then(column, Keyword("IN")), Punct('('), n, 0);
      ThenTokens(Then(column, Keyword("IN")), Punct('('));
      BindsPhraseTokens(n, count);
      BindTokensInOrder(n, count);
      ParensAligned(Then(Then(column, Keyword("IN")), Punct('(')), BindsPhrase(n, count), n, count);
    }
  }

  /** Every predicate's text is well spaced, and its i-th placeholder binds the i-th collected value. */
  lemma {:induction false} PredAligned(p: Pred, n: nat)
    ensures Aligned(PredPhrase(p, n), n, |PredValues(p)|)
    decreases p
  {
    TokenAligned(Punct('('), n);
    TokenAligned(Punct(')'), n);
    TTokens(Punct('('));
    match p
    case Bool(conjunction, operands) =>
      if operands == [] {
        AppendAligned(T(Punct('(')), T(Punct(')')), n, 0, 0);
      } else {
        JoinedAligned(operands, Joiner(conjunction), n);
        ParensAligned(T(Punct('(')), JoinedPhrase(operands, Joiner(conjunction), n), n, |ValuesIn(operands)|);
      }
    case Not(operand) =>
      PredAligned(operand, n);
      TokenAligned(Keyword("NOT"), n);
      AppendAligned(T(Punct('(')), T(Keyword("NOT")), n, 0, 0);
      var open := Sp(Append(T(Punct('(')), T(Keyword("NOT"))));
      ThenAligned(Append(T(Punct('(')), T(Keyword("NOT"))), Keyword("NOT"), n, 0);
      ThenTokens(Append(T(Punct('(')), T(Keyword("NOT"))), Keyword("NOT"));
      ParensAligned(open, PredPhrase(operand, n), n, |PredValues(operand)|);
    case _ => LeafAligned(p, n);
  }

  lemma {:induction false} JoinedAligned(ps: seq<Pred>, joiner: string, n: nat)
    requires ps != [] && Printable(Keyword(joiner))
    ensures Aligned(JoinedPhrase(ps, joiner, n), n, |ValuesIn(ps)|)
    decreases ps
  {
    PredAligned(ps[0], n);
    JoinFirst(ps);
    if |ps| > 1 {
      var count := |PredValues(ps[0])|;
      ThenTokens(Then(PredPhrase(ps[0], n), Keyword(joiner)), Keyword(joiner));
      JoinedAligned(ps[1..], joiner, n + count);
      ThenAligned(PredPhrase(ps[0], n), Keyword(joiner), n, count);
      ThenAligned(Then(PredPhrase(ps[0], n), Keyword(joiner)), Keyword(joiner), n, count);
      AppendAligned(Sp(Then(PredPhrase(ps[0], n), Keyword(joiner))), JoinedPhrase(ps[1..], joiner, n + count),
                    n, count, |ValuesIn(ps[1..])|);
    }
  }
}
