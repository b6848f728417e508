/**
  The compiled text of a predicate parses back, with SQL's precedence, to the condition it stands
  for; parentheses are placed so that no neighbouring AND, OR or NOT can capture an operand. A text
  that holds an empty operand list does not parse.
 */
module SqlRoundTrip {
  import opened Values
  import opened Predicates
  import opened SqlText
  import opened SqlSearch
  import opened SqlCompiler
  import opened SqlMeaning

  // ----- leaves -----

  lemma LeafFactor(t: Token, tail: seq<Token>)
    requires ParseTerm(t).Some?
    ensures ParseFactor([t] + tail) == ParsePredicateTail(ParseTerm(t).value, tail)
  {
    assert ([t] + tail)[1..] == tail;
  }

  function NullTail(negated: bool): seq<Token> {
    [Keyword("IS")] + (if negated then [Keyword("NOT")] else []) + [Keyword("NULL")]
  }

  lemma NullTokens(f: FieldRef, negated: bool)
    ensures Tokens(NullPhrase(f, negated)) == [Ident(f.field)] + NullTail(negated)
  {
    var tested := Then(ColumnPhrase(f), Keyword("IS"));
    TTokens(Ident(f.field));
    ThenTokens(ColumnPhrase(f), Keyword("IS"));
    ThenTokens(tested, Keyword("NOT"));
    ThenTokens(if negated then Then(tested, Keyword("NOT")) else tested, Keyword("NULL"));
  }

  lemma NullParses(f: FieldRef, negated: bool, rest: seq<Token>)
    ensures ParseFactor(Tokens(NullPhrase(f, negated)) + rest) == Some((NullCheck(Column(f.field), negated), rest))
  {
    NullTokens(f, negated);
    AppendTwice([Ident(f.field)], NullTail(negated), rest);
    LeafFactor(Ident(f.field), NullTail(negated) + rest);
    assert (NullTail(negated) + rest)[|NullTail(negated)|..] == rest;
  }

  lemma OpTail(lhs: Term, symbol: string, rhs: Token, rest: seq<Token>)
    requires ParseTerm(rhs).Some?
    ensures ParsePredicateTail(lhs, [Op(symbol), rhs] + rest)
      == Some((SqlSearch.Comparison(symbol, lhs, ParseTerm(rhs).value), rest))
  {
    assert ([Op(symbol), rhs] + rest)[2..] == rest;
  }

  lemma OpParses(lhs: Token, symbol: string, rhs: Token, rest: seq<Token>)
    requires ParseTerm(lhs).Some? && ParseTerm(rhs).Some?
    ensures ParseFactor(Tokens(Then(Then(T(lhs), Op(symbol)), rhs)) + rest)
      == Some((SqlSearch.Comparison(symbol, ParseTerm(lhs).value, ParseTerm(rhs).value), rest))
  {
    TTokens(lhs);
    ThenTokens(T(lhs), Op(symbol));
    ThenTokens(Then(T(lhs), Op(symbol)), rhs);
    assert [lhs] + [Op(symbol)] + [rhs] + rest == [lhs] + ([Op(symbol), rhs] + rest);
    LeafFactor(lhs, [Op(symbol), rhs] + rest);
    OpTail(ParseTerm(lhs).value, symbol, rhs, rest);
  }

  function LikeTail(op: PatternOp, n: nat): seq<Token> {
    if op.Like? then [Keyword("LIKE"), Bind(n)]
    else [Keyword("LIKE"), Bind(n), Keyword("ESCAPE"), Text("\\")]
  }

  lemma PatternTokens(f: FieldRef, op: PatternOp, n: nat)
    ensures Tokens(PatternPhrase(f, op, n)) == [Ident(f.field)] + LikeTail(op, n)
  {
    var like := Then(Then(ColumnPhrase(f), Keyword("LIKE")), Bind(n));
    TTokens(Ident(f.field));
    ThenTokens(ColumnPhrase(f), Keyword("LIKE"));
    ThenTokens(Then(ColumnPhrase(f), Keyword("LIKE")), Bind(n));
    ThenTokens(like, Keyword("ESCAPE"));
    ThenTokens(Then(like, Keyword("ESCAPE")), Text("\\"));
  }

  lemma LikeTailParses(lhs: Term, op: PatternOp, n: nat, rest: seq<Token>)
    requires rest == [] || rest[0] != Keyword("ESCAPE")
    ensures ParsePredicateTail(lhs, LikeTail(op, n) + rest)
      == Some((LikeCheck(lhs, Parameter(n), if op.Like? then None else Some("\\")), rest))
  {
    assert (LikeTail(op, n) + rest)[|LikeTail(op, n)|..] == rest;
  }

  lemma PatternParses(f: FieldRef, op: PatternOp, n: nat, rest: seq<Token>)
    requires rest == [] || rest[0] != Keyword("ESCAPE")
    ensures ParseFactor(Tokens(PatternPhrase(f, op, n)) + rest)
      == Some((LikeCheck(Column(f.field), Parameter(n), if op.Like? then None else Some("\\")), rest))
  {
    PatternTokens(f, op, n);
    AppendTwice([Ident(f.field)], LikeTail(op, n), rest);
    LeafFactor(Ident(f.field), LikeTail(op, n) + rest);
    LikeTailParses(Column(f.field), op, n, rest);
  }

  lemma {:induction false} BindsParse(n: nat, count: nat, rest: seq<Token>)
    requires count > 0
    ensures ParseTerms(BindTokens(n, count) + [Punct(')')] + rest) == Some((Parameters(n, count), rest))
    decreases count
  {
    var ts := BindTokens(n, count) + [Punct(')')] + rest;
    if count == 1 {
      assert ts == [Bind(n), Punct(')')] + rest;
      assert ts[2..] == rest;
      assert Parameters(n, 1) == [Parameter(n)];
    } else {
      BindsParse(n + 1, count - 1, rest);
      assert ts == [Bind(n), Punct(',')] + (BindTokens(n + 1, count - 1) + [Punct(')')] + rest);
      assert ts[2..] == BindTokens(n + 1, count - 1) + [Punct(')')] + rest;
      assert Parameters(n, count) == [Parameter(n)] + Parameters(n + 1, count - 1);
    }
  }

  function InKeywords(negated: bool): seq<Token> {
    if negated then [Keyword("NOT"), Keyword("IN")] else [Keyword("IN")]
  }

  function Inside(count: nat, n: nat): seq<Token>
    requires count > 0
  {
    [Punct('(')] + BindTokens(n, count) + [Punct(')')]
  }

  function InTail(negated: bool, count: nat, n: nat): seq<Token>
    requires count > 0
  {
    InKeywords(negated) + Inside(count, n)
  }

  lemma InOpenTokens(negated: bool, f: FieldRef)
    ensures
      var column := if negated then Then(ColumnPhrase(f), Keyword("NOT")) else ColumnPhrase(f);
      Tokens(Then(Then(column, Keyword("IN")), Punct('('))) == [Ident(f.field)] + InKeywords(negated) + [Punct('(')]
  {
    var column := if negated then Then(ColumnPhrase(f), Keyword("NOT")) else ColumnPhrase(f);
    TTokens(Ident(f.field));
    ThenTokens(ColumnPhrase(f), Keyword("NOT"));
    ThenTokens(column, Keyword("IN"));
    ThenTokens(Then(column, Keyword("IN")), Punct('('));
  }

  lemma MembershipTokens(negated: bool, f: FieldRef, count: nat, n: nat)
    requires count > 0
    ensures Tokens(MembershipPhrase(negated, f, count, n)) == [Ident(f.field)] + InTail(negated, count, n)
  {
    var column := if negated then Then(ColumnPhrase(f), Keyword("NOT")) else ColumnPhrase(f);
    var open := Then(Then(column, Keyword("IN")), Punct('('));
    InOpenTokens(negated, f);
    TTokens(Punct(')'));
    BindsPhraseTokens(n, count);
    AppendTokens(open, BindsPhrase(n, count));
    AppendTokens(Append(open, BindsPhrase(n, count)), T(Punct(')')));
    Regroup([Ident(f.field)], InKeywords(negated), [Punct('(')], BindTokens(n, count), [Punct(')')]);
  }

  lemma Regroup<X>(a: seq<X>, b: seq<X>, c: seq<X>, d: seq<X>, e: seq<X>)
    ensures a + b + c + d + e == a + (b + (c + d + e))
  {
  }

  lemma InsideParses(lhs: Term, negated: bool, count: nat, n: nat, rest: seq<Token>)
    requires count > 0
    ensures ParseIn(lhs, Inside(count, n) + rest, negated) == Some((InList(lhs, Parameters(n, count), negated), rest))
  {
    BindsParse(n, count, rest);
    assert (Inside(count, n) + rest)[1..] == BindTokens(n, count) + [Punct(')')] + rest;
  }

  lemma KeywordsThen(lhs: Term, negated: bool, inside: seq<Token>)
    requires inside != []
    ensures ParsePredicateTail(lhs, InKeywords(negated) + inside) == ParseIn(lhs, inside, negated)
  {
    assert (InKeywords(negated) + inside)[|InKeywords(negated)|..] == inside;
  }

  lemma InTailParses(lhs: Term, negated: bool, count: nat, n: nat, rest: seq<Token>)
    requires count > 0
    ensures ParsePredicateTail(lhs, InTail(negated, count, n) + rest)
      == Some((InList(lhs, Parameters(n, count), negated), rest))
  {
    AppendTwice(InKeywords(negated), Inside(count, n), rest);
    KeywordsThen(lhs, negated, Inside(count, n) + rest);
    InsideParses(lhs, negated, count, n, rest);
  }

  lemma MembershipParses(negated: bool, f: FieldRef, count: nat, n: nat, rest: seq<Token>)
    requires count > 0
    ensures ParseFactor(Tokens(MembershipPhrase(negated, f, count, n)) + rest)
      == Some((InList(Column(f.field), Parameters(n, count), negated), rest))
  {
    MembershipTokens(negated, f, count, n);
    AppendTwice([Ident(f.field)], InTail(negated, count, n), rest);
    LeafFactor(Ident(f.field), InTail(negated, count, n) + rest);
    InTailParses(Column(f.field), negated, count, n, rest);
  }

  lemma LeafParses(p: Pred, n: nat, rest: seq<Token>)
    requires !p.Bool? && !p.Not?
    requires rest == [] || rest[0] != Keyword("ESCAPE")
    ensures ParseFactor(Tokens(PredPhrase(p, n)) + rest) == Some((LeafCond(p, n), rest))
  {
    match p
    case Compare(op, left, right) =>
      NullParses(left, op.Ne?, rest);
      OpParses(Ident(left.field), Symbol(op), Bind(n), rest);
    case Membership(negated, left, values) =>
      if values == [] {
        OpParses(Number(1), "=", Number(if negated then 1 else 0), rest);
      } else {
        MembershipParses(negated, left, |values|, n, rest);
      }
    case Pattern(op, left, _) => PatternParses(left, op, n, rest);
    case NullTest(op, left) => NullParses(left, !op.IsNull?, rest);
  }

  // ----- trees -----

  /** What may follow a search condition: nothing that would extend it. */
  predicate Stops(rest: seq<Token>) {
    rest == [] || rest[0] !in {Keyword("ESCAPE"), Keyword("AND"), Keyword("OR")}
  }

  lemma FactorAlone(ts: seq<Token>, c: Cond, rest: seq<Token>)
    requires ParseFactor(ts) == Some((c, rest))
    ensures rest == [] || rest[0] != Keyword("AND") ==> ParseAnd(ts) == Some((c, rest))
    ensures Stops(rest) ==> ParseOr(ts) == Some((c, rest))
  {
  }

  lemma ParensParse(inner: seq<Token>, c: Cond, rest: seq<Token>)
    requires ParseOr(inner + [Punct(')')] + rest) == Some((c, [Punct(')')] + rest))
    ensures ParseFactor([Punct('(')] + inner + [Punct(')')] + rest) == Some((c, rest))
  {
    var ts := [Punct('(')] + inner + [Punct(')')] + rest;
    assert ts[1..] == inner + [Punct(')')] + rest;
    assert ([Punct(')')] + rest)[1..] == rest;
  }

  lemma NotParses(inner: seq<Token>, c: Cond, rest: seq<Token>)
    requires ParseFactor(inner + [Punct(')')] + rest) == Some((c, [Punct(')')] + rest))
    ensures ParseFactor([Punct('('), Keyword("NOT")] + inner + [Punct(')')] + rest) == Some((Negation(c), rest))
  {
    hide ParseTerm, ParsePredicateTail;
    var ts := [Keyword("NOT")] + inner + [Punct(')')] + rest;
    assert ts[1..] == inner + [Punct(')')] + rest;
    assert ParseFactor(ts) == Some((Negation(c), [Punct(')')] + rest));
    FactorAlone(ts, Negation(c), [Punct(')')] + rest);
    ParensParse([Keyword("NOT")] + inner, Negation(c), rest);
    assert [Keyword("NOT")] + inner + [Punct(')')] + rest == ([Keyword("NOT")] + inner) + [Punct(')')] + rest;
    assert [Punct('('), Keyword("NOT")] + inner + [Punct(')')] + rest
      == [Punct('(')] + ([Keyword("NOT")] + inner) + [Punct(')')] + rest;
  }

  lemma NotTokens(p: Pred, n: nat)
    requires p.Not?
    ensures Tokens(PredPhrase(p, n)) ==
      [Punct('('), Keyword("NOT")] + Tokens(PredPhrase(p.operand, n)) + [Punct(')')]
  {
    var open := Append(T(Punct('(')), T(Keyword("NOT")));
    TTokens(Punct('('));
    TTokens(Punct(')'));
    TTokens(Keyword("NOT"));
    AppendTokens(T(Punct('(')), T(Keyword("NOT")));
    ThenTokens(open, Keyword("NOT"));
    AppendTokens(Sp(open), PredPhrase(p.operand, n));
    AppendTokens(Append(Sp(open), PredPhrase(p.operand, n)), T(Punct(')')));
  }

  lemma BoolTokens(p: Pred, n: nat)
    requires p.Bool? && p.operands != []
    ensures Tokens(PredPhrase(p, n)) ==
      [Punct('(')] + Tokens(JoinedPhrase(p.operands, Joiner(p.conjunction), n)) + [Punct(')')]
  {
    var inner := JoinedPhrase(p.operands, Joiner(p.conjunction), n);
    TTokens(Punct('('));
    TTokens(Punct(')'));
    AppendTokens(T(Punct('(')), inner);
    AppendTokens(Append(T(Punct('(')), inner), T(Punct(')')));
  }

  lemma JoinedTokens(ps: seq<Pred>, joiner: string, n: nat)
    requires |ps| > 1
    ensures Tokens(JoinedPhrase(ps, joiner, n)) == Tokens(PredPhrase(ps[0], n))
      + ([Keyword(joiner)] + Tokens(JoinedPhrase(ps[1..], joiner, n + |PredValues(ps[0])|)))
  {
    var first, rest := PredPhrase(ps[0], n), JoinedPhrase(ps[1..], joiner, n + |PredValues(ps[0])|);
    ThenTokens(first, Keyword(joiner));
    ThenTokens(Then(first, Keyword(joiner)), Keyword(joiner));
    AppendTokens(Sp(Then(first, Keyword(joiner))), rest);
  }

  lemma JoinedTokensThen(ps: seq<Pred>, joiner: string, n: nat, rest: seq<Token>)
    requires |ps| > 1
    ensures
      var tail := Tokens(JoinedPhrase(ps[1..], joiner, n + |PredValues(ps[0])|)) + rest;
      Tokens(JoinedPhrase(ps, joiner, n)) + rest == Tokens(PredPhrase(ps[0], n)) + ([Keyword(joiner)] + tail)
  {
    var more := Tokens(JoinedPhrase(ps[1..], joiner, n + |PredValues(ps[0])|));
    JoinedTokens(ps, joiner, n);
    AppendTwice([Keyword(joiner)], more, rest);
    AppendTwice(Tokens(PredPhrase(ps[0], n)), [Keyword(joiner)] + more, rest);
  }

  lemma AndAlone(ts: seq<Token>, c: Cond, rest: seq<Token>)
    requires ParseAnd(ts) == Some((c, rest)) && Stops(rest)
    ensures ParseOr(ts) == Some((c, rest))
  {
  }

  lemma AndStep(first: seq<Token>, c: Cond, rest: seq<Token>, more: Cond, after: seq<Token>)
    requires ParseFactor(first + ([Keyword("AND")] + rest)) == Some((c, [Keyword("AND")] + rest))
    requires ParseAnd(rest) == Some((more, after))
    ensures ParseAnd(first + ([Keyword("AND")] + rest)) == Some((AndAlso(c, more), after))
  {
    assert ([Keyword("AND")] + rest)[1..] == rest;
  }

  lemma OrStep(first: seq<Token>, c: Cond, rest: seq<Token>, more: Cond, after: seq<Token>)
    requires ParseFactor(first + ([Keyword("OR")] + rest)) == Some((c, [Keyword("OR")] + rest))
    requires ParseOr(rest) == Some((more, after))
    ensures ParseOr(first + ([Keyword("OR")] + rest)) == Some((OrElse(c, more), after))
  {
    FactorAlone(first + ([Keyword("OR")] + rest), c, [Keyword("OR")] + rest);
    assert ([Keyword("OR")] + rest)[1..] == rest;
  }

  lemma {:induction false} PredParses(p: Pred, n: nat, rest: seq<Token>)
    requires Grounded(p)
    requires rest == [] || rest[0] != Keyword("ESCAPE")
    ensures ParseFactor(Tokens(PredPhrase(p, n)) + rest) == Some((CondOf(p, n), rest))
    decreases p
  {
    match p
    case Bool(conjunction, operands) =>
      BoolTokens(p, n);
      JoinedParses(operands, conjunction, n, [Punct(')')] + rest);
      var inner := Tokens(JoinedPhrase(operands, Joiner(conjunction), n));
      AppendTwice(inner, [Punct(')')], rest);
      ParensParse(inner, CondOf(p, n), rest);
    case Not(operand) =>
      NotTokens(p, n);
      PredParses(operand, n, [Punct(')')] + rest);
      var inner := Tokens(PredPhrase(operand, n));
      AppendTwice(inner, [Punct(')')], rest);
      NotParses(inner, CondOf(operand, n), rest);
    case _ => LeafParses(p, n, rest);
  }

  /** A list joined by AND parses alike as a conjunction and as a whole search condition. */
  ghost predicate ParsesTo(ts: seq<Token>, conjunction: bool, c: Cond, rest: seq<Token>) {
    ParseOr(ts) == Some((c, rest)) && (conjunction ==> ParseAnd(ts) == Some((c, rest)))
  }

  lemma {:induction false} JoinedParses(ps: seq<Pred>, conjunction: bool, n: nat, rest: seq<Token>)
    requires ps != [] && (forall p :: p in ps ==> Grounded(p)) && Stops(rest)
    ensures ParsesTo(Tokens(JoinedPhrase(ps, Joiner(conjunction), n)) + rest, conjunction, JoinedCond(ps, conjunction, n), rest)
    decreases ps
  {
    hide ParseFactor, ParseAnd, ParseOr, Tokens, PredPhrase, CondOf, PredValues;
    var first := Tokens(PredPhrase(ps[0], n));
    if |ps| == 1 {
      PredParses(ps[0], n, rest);
      FactorAlone(first + rest, CondOf(ps[0], n), rest);
    } else {
      var n', joiner := n + |PredValues(ps[0])|, Joiner(conjunction);
      var tail := Tokens(JoinedPhrase(ps[1..], joiner, n')) + rest;
      PredParses(ps[0], n, [Keyword(joiner)] + tail);
      JoinedParses(ps[1..], conjunction, n', rest);
      JoinStep(first, CondOf(ps[0], n), tail, JoinedCond(ps[1..], conjunction, n'), rest, conjunction);
      JoinedTokensThen(ps, joiner, n, rest);
    }
  }

  lemma JoinStep(first: seq<Token>, c: Cond, tail: seq<Token>, more: Cond, rest: seq<Token>, conjunction: bool)
    requires Stops(rest)
    requires ParseFactor(first + ([Keyword(Joiner(conjunction))] + tail)) == Some((c, [Keyword(Joiner(conjunction))] + tail))
    requires ParsesTo(tail, conjunction, more, rest)
    ensures ParsesTo(first + ([Keyword(Joiner(conjunction))] + tail), conjunction,
                     if conjunction then AndAlso(c, more) else OrElse(c, more), rest)
  {
    if conjunction {
      AndStep(first, c, tail, more, rest);
      AndAlone(first + ([Keyword("AND")] + tail), AndAlso(c, more), rest);
    } else {
      OrStep(first, c, tail, more, rest);
    }
  }

  // ----- what does not parse -----

  lemma NothingInside(rest: seq<Token>)
    ensures ParseFactor([Punct('('), Punct(')')] + rest).None?
  {
    var inner := [Punct(')')] + rest;
    assert ([Punct('('), Punct(')')] + rest)[1..] == inner;
    assert ParseFactor(inner).None? && ParseAnd(inner).None? && ParseOr(inner).None?;
  }

  lemma FactorFails(ts: seq<Token>)
    requires ParseFactor(ts).None?
    ensures ParseAnd(ts).None? && ParseOr(ts).None?
  {
  }

  lemma ParensFail(inner: seq<Token>, rest: seq<Token>)
    requires ParseOr(inner + ([Punct(')')] + rest)).None?
    ensures ParseFactor([Punct('(')] + inner + [Punct(')')] + rest).None?
  {
    var ts := [Punct('(')] + inner + [Punct(')')] + rest;
    assert ts[1..] == inner + ([Punct(')')] + rest);
  }

  lemma NotFails(inner: seq<Token>, rest: seq<Token>)
    requires ParseFactor(inner + ([Punct(')')] + rest)).None?
    ensures ParseFactor([Punct('('), Keyword("NOT")] + inner + [Punct(')')] + rest).None?
  {
    var negated := [Keyword("NOT")] + inner + ([Punct(')')] + rest);
    assert negated[1..] == inner + ([Punct(')')] + rest);
    FactorFails(negated);
    ParensFail([Keyword("NOT")] + inner, rest);
    assert [Punct('('), Keyword("NOT")] + inner + [Punct(')')] + rest
      == [Punct('(')] + ([Keyword("NOT")] + inner) + [Punct(')')] + rest;
  }

  /** An and/or without operands, however deep it stands, leaves text that no SQL parser accepts. */
  lemma {:induction false} UngroundedFails(p: Pred, n: nat, rest: seq<Token>)
    requires !Grounded(p)
    ensures ParseFactor(Tokens(PredPhrase(p, n)) + rest).None?
    decreases p
  {
    match p
    case Bool(conjunction, operands) =>
      if operands == [] {
        TTokens(Punct('('));
        TTokens(Punct(')'));
        AppendTokens(T(Punct('(')), T(Punct(')')));
        assert [Punct('(')] + [Punct(')')] == [Punct('('), Punct(')')];
        NothingInside(rest);
      } else {
        BoolTokens(p, n);
        UngroundedJoinFails(operands, conjunction, n, [Punct(')')] + rest);
        ParensFail(Tokens(JoinedPhrase(operands, Joiner(conjunction), n)), rest);
      }
    case Not(operand) =>
      NotTokens(p, n);
      UngroundedFails(operand, n, [Punct(')')] + rest);
      NotFails(Tokens(PredPhrase(operand, n)), rest);
  }

  lemma AndFails(ts: seq<Token>, c: Cond, tail: seq<Token>)
    requires ParseFactor(ts) == Some((c, [Keyword("AND")] + tail)) && ParseAnd(tail).None?
    ensures ParseAnd(ts).None? && ParseOr(ts).None?
  {
    assert ([Keyword("AND")] + tail)[1..] == tail;
  }

  lemma OrFails(ts: seq<Token>, c: Cond, tail: seq<Token>)
    requires ParseFactor(ts) == Some((c, [Keyword("OR")] + tail)) && ParseOr(tail).None?
    ensures ParseOr(ts).None?
  {
    FactorAlone(ts, c, [Keyword("OR")] + tail);
    assert ([Keyword("OR")] + tail)[1..] == tail;
  }

  lemma {:induction false} UngroundedJoinFails(ps: seq<Pred>, conjunction: bool, n: nat, rest: seq<Token>)
    requires ps != [] && exists p :: p in ps && !Grounded(p)
    ensures ParseOr(Tokens(JoinedPhrase(ps, Joiner(conjunction), n)) + rest).None?
    ensures conjunction ==> ParseAnd(Tokens(JoinedPhrase(ps, Joiner(conjunction), n)) + rest).None?
    decreases ps
  {
    hide ParseFactor, ParseAnd, ParseOr, Tokens, PredPhrase, CondOf, PredValues;
    var joiner := Joiner(conjunction);
    var tail := if |ps| == 1 then rest
                else [Keyword(joiner)] + (Tokens(JoinedPhrase(ps[1..], joiner, n + |PredValues(ps[0])|)) + rest);
    var ts := Tokens(PredPhrase(ps[0], n)) + tail;
    if |ps| > 1 {
      JoinedTokensThen(ps, joiner, n, rest);
    }
    if !Grounded(ps[0]) {
      UngroundedFails(ps[0], n, tail);
      FactorFails(ts);
    } else {
      var more := Tokens(JoinedPhrase(ps[1..], joiner, n + |PredValues(ps[0])|)) + rest;
      UngroundedJoinFails(ps[1..], conjunction, n + |PredValues(ps[0])|, rest);
      PredParses(ps[0], n, tail);
      if conjunction {
        AndFails(ts, CondOf(ps[0], n), more);
      } else {
        OrFails(ts, CondOf(ps[0], n), more);
      }
    }
  }

  /** The text of a predicate is an SQL search condition if and only if no and/or in it, at any depth, is
      without operands. */
  lemma ParsesExactlyWhenGrounded(d: Dialect, p: Pred)
    ensures ParseOr(Lex(d, TextOf(d, PredPhrase(p, 0)), 0)).Some? <==> Grounded(p)
  {
    PredAligned(p, 0);
    LexPhrase(d, PredPhrase(p, 0), 0);
    var ts := Tokens(PredPhrase(p, 0));
    assert ts + [] == ts;
    if Grounded(p) {
      PredParses(p, 0, []);
      FactorAlone(ts, CondOf(p, 0), []);
    } else {
      UngroundedFails(p, 0, []);
      FactorFails(ts);
    }
  }
}
