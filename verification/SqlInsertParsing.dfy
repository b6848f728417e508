/**
  Reading INSERT and UPSERT statements back: the verb, the table and the columns, for each row and
  column the placeholder and so the value bound there, what happens on a conflict, and which texts are
  no statement at all because a list in them is empty.
 */
module SqlInsertParsing {
  import opened Values
  import opened Predicates
  import opened SqlText
  import opened SqlSearch
  import opened SqlCompiler
  import opened SqlMeaning
  import opened SqlRoundTrip
  import opened SqlStatements
  import opened SqlExecution
  import opened SqlMutations
  import opened SqlInserts
  import Tables

  // ----- grammar -----

  type Sets = seq<(string, Term)>

  datatype Action = Refuse | DoNothing | OnConflict(columns: seq<string>, sets: Sets) | OnDuplicate(sets: Sets)

  datatype Insertion = Insertion(verb: seq<string>, table: string, columns: seq<string>, tuples: seq<seq<Term>>,
                                 action: Action, returning: bool)

  const VERBS: seq<seq<string>> := [["INSERT"], ["INSERT", "IGNORE"], ["INSERT", "OR", "REPLACE"], ["REPLACE"]]

  function WordTokens(ws: seq<string>): (r: seq<Token>)
    ensures |r| == |ws| && forall i :: 0 <= i < |r| ==> r[i] == Keyword(ws[i])
  {
    seq(|ws|, i requires 0 <= i < |ws| => Keyword(ws[i]))
  }

  predicate Opens(ts: seq<Token>, ws: seq<string>) {
    WordTokens(ws) <= ts
  }

  /** The verb and what follows its INTO. */
  function ParseVerb(ts: seq<Token>): Option<(seq<string>, seq<Token>)> {
    if Opens(ts, ["INSERT", "INTO"]) then Some((["INSERT"], ts[2..]))
    else if Opens(ts, ["INSERT", "IGNORE", "INTO"]) then Some((["INSERT", "IGNORE"], ts[3..]))
    else if Opens(ts, ["INSERT", "OR", "REPLACE", "INTO"]) then Some((["INSERT", "OR", "REPLACE"], ts[4..]))
    else if Opens(ts, ["REPLACE", "INTO"]) then Some((["REPLACE"], ts[2..]))
    else None
  }

  function ParseNameList(ts: seq<Token>): (r: Option<(seq<string>, seq<Token>)>)
    ensures r.Some? ==> |r.value.1| < |ts|
  {
    if ts == [] || ts[0] != Punct('(') then None
    else
      var names := ParseNames(ts[1..]);
      if names.None? || names.value.1 == [] || names.value.1[0] != Punct(')') then None
      else Some((names.value.0, names.value.1[1..]))
  }

  function ParseTuples(ts: seq<Token>): Option<(seq<seq<Term>>, seq<Token>)>
    decreases |ts|
  {
    if ts == [] || ts[0] != Punct('(') then None
    else
      var tuple := ParseTerms(ts[1..]);
      if tuple.None? then None
      else if tuple.value.1 != [] && tuple.value.1[0] == Punct(',') then
        var more := ParseTuples(tuple.value.1[1..]);
        if more.None? then None else Some(([tuple.value.0] + more.value.0, more.value.1))
      else Some(([tuple.value.0], tuple.value.1))
  }

  function ParseSets(ts: seq<Token>): Option<(Sets, seq<Token>)>
    decreases |ts|
  {
    if |ts| < 3 || !ts[0].Ident? || ts[1] != Op("=") || ParseTerm(ts[2]).None? then None
    else
      var first := (ts[0].name, ParseTerm(ts[2]).value);
      if |ts| > 3 && ts[3] == Punct(',') then
        var more := ParseSets(ts[4..]);
        if more.None? then None else Some(([first] + more.value.0, more.value.1))
      else Some(([first], ts[3..]))
  }

  function ParseAction(ts: seq<Token>): Option<(Action, seq<Token>)> {
    if Opens(ts, ON_CONFLICT + ["DO", "NOTHING"]) then Some((DoNothing, ts[4..]))
    else if Opens(ts, ON_CONFLICT) then
      var columns := ParseNameList(ts[2..]);
      if columns.None? || !Opens(columns.value.1, DO_UPDATE) then None
      else
        var sets := ParseSets(columns.value.1[3..]);
        if sets.None? then None else Some((OnConflict(columns.value.0, sets.value.0), sets.value.1))
    else if Opens(ts, ON_DUPLICATE) then
      var sets := ParseSets(ts[4..]);
      if sets.None? then None else Some((OnDuplicate(sets.value.0), sets.value.1))
    else Some((Refuse, ts))
  }

  function ParseReturning(ts: seq<Token>): Option<bool> {
    if ts == [] then Some(false) else if ts == [Keyword("RETURNING"), Punct('*')] then Some(true) else None
  }

  /** What follows VALUES. */
  function ParseRows(verb: seq<string>, table: string, columns: seq<string>, ts: seq<Token>): Option<Insertion> {
    var tuples := ParseTuples(ts);
    if tuples.None? then None
    else
      var action := ParseAction(tuples.value.1);
      if action.None? then None
      else
        var returning := ParseReturning(action.value.1);
        if returning.None? then None
        else Some(Insertion(verb, table, columns, tuples.value.0, action.value.0, returning.value))
  }

  function ParseInsertion(ts: seq<Token>): Option<Insertion> {
    var verb := ParseVerb(ts);
    if verb.None? || verb.value.1 == [] || !verb.value.1[0].Ident? then None
    else
      var columns := ParseNameList(verb.value.1[1..]);
      if columns.None? || columns.value.1 == [] || columns.value.1[0] != Keyword("VALUES") then None
      else ParseRows(verb.value.0, verb.value.1[0].name, columns.value.0, columns.value.1[1..])
  }

  // ----- tokens of the phrases -----

  ghost predicate AllWords(ws: seq<string>) {
    ws != [] && forall i :: 0 <= i < |ws| ==> Printable(Keyword(ws[i]))
  }

  lemma {:induction false} WordsRead(ws: seq<string>, n: nat)
    requires AllWords(ws)
    ensures Tokens(Words(ws)) == WordTokens(ws) && Aligned(Words(ws), n, 0)
    decreases |ws|
  {
    hide Tokens, Aligned, Printable;
    var k := |ws| - 1;
    if k == 0 {
      TTokens(Keyword(ws[0]));
      TokenAligned(Keyword(ws[0]), n);
    } else {
      WordsRead(ws[..k], n);
      ThenTokens(Words(ws[..k]), Keyword(ws[k]));
      ThenAligned(Words(ws[..k]), Keyword(ws[k]), n, 0);
      assert WordTokens(ws) == WordTokens(ws[..k]) + [Keyword(ws[k])];
    }
  }

  function ParenTokens(parts: seq<seq<Token>>): seq<Token> {
    [Punct('(')] + (if parts == [] then [] else CommaTokens(parts)) + [Punct(')')]
  }

  lemma ClosedReads(list: Phrase, ts: seq<Token>, n: nat, count: nat)
    requires Tokens(list) == ts && Aligned(list, n, count)
    ensures Tokens(Close(Append(T(Punct('(')), list))) == [Punct('(')] + ts + [Punct(')')]
    ensures Aligned(Close(Append(T(Punct('(')), list)), n, count)
  {
    hide Aligned, Tokens;
    TTokens(Punct('('));
    TTokens(Punct(')'));
    TokenAligned(Punct('('), n);
    AppendTokens(T(Punct('(')), list);
    AppendTokens(Append(T(Punct('(')), list), T(Punct(')')));
    ParensAligned(T(Punct('(')), list, n, count);
  }

  lemma EmptyParensRead(n: nat)
    ensures Tokens(Append(T(Punct('(')), T(Punct(')')))) == [Punct('('), Punct(')')]
    ensures Aligned(Append(T(Punct('(')), T(Punct(')'))), n, 0)
  {
    TTokens(Punct('('));
    TTokens(Punct(')'));
    TokenAligned(Punct('('), n);
    TokenAligned(Punct(')'), n);
    AppendTokens(T(Punct('(')), T(Punct(')')));
    AppendAligned(T(Punct('(')), T(Punct(')')), n, 0, 0);
  }

  lemma NameListReads(names: seq<string>, n: nat)
    ensures Tokens(Parens(IdentPhrases(names))) == ParenTokens(NameParts(names))
    ensures Aligned(Parens(IdentPhrases(names)), n, 0)
  {
    hide Tokens, Aligned, ListPhrase, CommaTokens;
    if names == [] {
      EmptyParensRead(n);
    } else {
      NamesReads(names, n);
      ClosedReads(ListPhrase(IdentPhrases(names)), CommaTokens(NameParts(names)), n, 0);
    }
  }

  function TupleTokens(n: nat, k: nat): seq<Token> {
    [Punct('(')] + (if k == 0 then [] else BindTokens(n, k)) + [Punct(')')]
  }

  lemma TupleReads(n: nat, k: nat)
    ensures Tokens(TuplePhrase(n, k)) == TupleTokens(n, k) && Aligned(TuplePhrase(n, k), n, k)
  {
    if k == 0 {
      EmptyParensRead(n);
    } else {
      BindsPhraseTokens(n, k);
      BindTokensInOrder(n, k);
      ClosedReads(BindsPhrase(n, k), BindTokens(n, k), n, k);
    }
  }

  function TupleParts(count: nat, k: nat): (r: seq<seq<Token>>)
    ensures |r| == count && forall i :: 0 <= i < count ==> r[i] == TupleTokens(i * k, k)
  {
    seq(count, i requires 0 <= i => TupleTokens(i * k, k))
  }

  /** How many values `count` rows of `k` bind. */
  function CellCount(count: nat, k: nat): nat {
    count * k
  }

  lemma TuplesRead(count: nat, k: nat)
    requires count > 0
    ensures Tokens(ListPhrase(TuplePhrases(count, k))) == CommaTokens(TupleParts(count, k))
    ensures Aligned(ListPhrase(TuplePhrases(count, k)), 0, CellCount(count, k))
  {
    hide Tokens, Aligned, ListPhrase, CommaTokens, TuplePhrase, TupleTokens;
    var ps := TuplePhrases(count, k);
    forall i | 0 <= i < count ensures Aligned(ps[i], 0 + i * k, k) && Tokens(ps[i]) == TupleParts(count, k)[i] {
      TupleReads(i * k, k);
    }
    ListCounts(ps, 0, k);
    ListTokens(ps, TupleParts(count, k));
  }

  function HeadTokensOf(verb: seq<string>, table: string, columns: seq<string>): seq<Token> {
    WordTokens(verb) + [Keyword("INTO")] + [Ident(table)] + ParenTokens(NameParts(columns)) + [Keyword("VALUES")]
  }

  lemma InsertHeadReads(verb: seq<string>, table: string, columns: seq<string>)
    requires AllWords(verb)
    ensures Tokens(InsertHead(verb, table, columns)) == HeadTokensOf(verb, table, columns)
    ensures Aligned(InsertHead(verb, table, columns), 0, 0)
  {
    hide Tokens, Aligned, Words, WordTokens, Parens, ParenTokens;
    var a := Words(verb);
    var b := Then(a, Keyword("INTO"));
    var c := Then(b, Ident(table));
    var e := Append(Sp(c), Parens(IdentPhrases(columns)));
    WordsRead(verb, 0);
    ThenTokens(a, Keyword("INTO"));
    ThenAligned(a, Keyword("INTO"), 0, 0);
    ThenTokens(b, Ident(table));
    ThenAligned(b, Ident(table), 0, 0);
    NameListReads(columns, 0);
    ThenTokens(c, Keyword("VALUES"));
    ThenAligned(c, Keyword("VALUES"), 0, 0);
    AppendTokens(Sp(c), Parens(IdentPhrases(columns)));
    AppendAligned(Sp(c), Parens(IdentPhrases(columns)), 0, 0, 0);
    ThenTokens(e, Keyword("VALUES"));
    ThenAligned(e, Keyword("VALUES"), 0, 0);
  }

  function BodyTokens(verb: seq<string>, table: string, columns: seq<string>, count: nat): seq<Token>
    requires count > 0
  {
    HeadTokensOf(verb, table, columns) + CommaTokens(TupleParts(count, |columns|))
  }

  lemma InsertBodyReads(verb: seq<string>, table: string, columns: seq<string>, count: nat)
    requires AllWords(verb) && count > 0
    ensures Tokens(InsertBody(verb, table, columns, count)) == BodyTokens(verb, table, columns, count)
    ensures Aligned(InsertBody(verb, table, columns, count), 0, CellCount(count, |columns|))
  {
    hide Tokens, Aligned, InsertHead, HeadTokensOf, ListPhrase, CommaTokens, CellCount;
    var head, list := InsertHead(verb, table, columns), ListPhrase(TuplePhrases(count, |columns|));
    InsertHeadReads(verb, table, columns);
    TuplesRead(count, |columns|);
    ThenTokens(head, Keyword("VALUES"));
    ThenAligned(head, Keyword("VALUES"), 0, 0);
    AppendTokens(Sp(head), list);
    AppendAligned(Sp(head), list, 0, 0, CellCount(count, |columns|));
  }

  lemma VerbWords(d: Dialect, c: Tables.Conflict)
    ensures AllWords(Verb(d, c)) && Verb(d, c) in VERBS
  {
    assert Printable(Keyword("INSERT")) && Printable(Keyword("REPLACE")) && Printable(Keyword("IGNORE")) && Printable(Keyword("OR"));
    assert VERBS[0] in VERBS && VERBS[1] in VERBS && VERBS[2] in VERBS && VERBS[3] in VERBS;
  }

  lemma ActionWords()
    ensures AllWords(ON_CONFLICT + ["DO", "NOTHING"]) && AllWords(ON_CONFLICT) && AllWords(DO_UPDATE) && AllWords(ON_DUPLICATE)
    ensures ON_CONFLICT + ["DO", "NOTHING"] == ["ON", "CONFLICT", "DO", "NOTHING"]
  {
    hide Printable;
    ConflictWords();
    UpdateWords();
  }

  lemma ConflictWords()
    ensures Printable(Keyword("ON")) && Printable(Keyword("CONFLICT")) && Printable(Keyword("DO")) && Printable(Keyword("NOTHING"))
  {
  }

  lemma UpdateWords()
    ensures Printable(Keyword("UPDATE")) && Printable(Keyword("SET")) && Printable(Keyword("DUPLICATE")) && Printable(Keyword("KEY"))
  {
  }

  function ReturningTokens(d: Dialect): seq<Token> {
    if d.Mysql? then [] else [Keyword("RETURNING"), Punct('*')]
  }

  lemma ThenReturning(d: Dialect, before: Phrase, count: nat)
    requires Aligned(before, 0, count)
    ensures Tokens(With(before, ReturningPhrase(d))) == Tokens(before) + ReturningTokens(d)
    ensures Aligned(With(before, ReturningPhrase(d)), 0, count)
  {
    if !d.Mysql? {
      TTokens(Keyword("RETURNING"));
      TokenAligned(Keyword("RETURNING"), count);
      ThenTokens(T(Keyword("RETURNING")), Punct('*'));
      ThenAligned(T(Keyword("RETURNING")), Punct('*'), count, 0);
    }
    WithReads(before, ReturningPhrase(d), ReturningTokens(d), 0, count, 0);
  }

  function IgnoreTokens(d: Dialect, c: Tables.Conflict): seq<Token> {
    if c.Ignore? && !d.Mysql? then WordTokens(ON_CONFLICT + ["DO", "NOTHING"]) else []
  }

  lemma InsertReads(d: Dialect, table: string, c: Tables.Conflict, columns: seq<string>, count: nat)
    requires count > 0
    ensures Tokens(InsertPhrase(d, table, c, columns, count)) ==
      BodyTokens(Verb(d, c), table, columns, count) + IgnoreTokens(d, c) + ReturningTokens(d)
    ensures Aligned(InsertPhrase(d, table, c, columns, count), 0, CellCount(count, |columns|))
  {
    hide Tokens, Aligned, InsertBody, BodyTokens, ReturningPhrase, ReturningTokens, Words, WordTokens, Verb, CellCount;
    var body, n := InsertBody(Verb(d, c), table, columns, count), CellCount(count, |columns|);
    VerbWords(d, c);
    ActionWords();
    InsertBodyReads(Verb(d, c), table, columns, count);
    WordsRead(ON_CONFLICT + ["DO", "NOTHING"], n);
    WithReads(body, IgnorePhrase(d, c), IgnoreTokens(d, c), 0, n, 0);
    ThenReturning(d, With(body, IgnorePhrase(d, c)), n);
  }

  // ----- reading it back -----

  lemma Front(a: seq<Token>, b: seq<Token>)
    ensures a <= a + b && (a + b)[|a|..] == b
  {
  }

  lemma NotThat(ts: seq<Token>, ws: seq<string>, i: nat)
    requires i < |ts| && i < |ws| && ts[i] != Keyword(ws[i])
    ensures !Opens(ts, ws)
  {
  }

  lemma WordsOpen(ws: seq<string>, rest: seq<Token>)
    ensures Opens(WordTokens(ws) + rest, ws) && (WordTokens(ws) + rest)[|ws|..] == rest
  {
    Front(WordTokens(ws), rest);
  }

  lemma VerbParses(verb: seq<string>, rest: seq<Token>)
    requires verb in VERBS
    ensures ParseVerb(WordTokens(verb) + [Keyword("INTO")] + rest) == Some((verb, rest))
  {
    var ts := WordTokens(verb) + [Keyword("INTO")] + rest;
    assert WordTokens(verb + ["INTO"]) == WordTokens(verb) + [Keyword("INTO")];
    WordsOpen(verb + ["INTO"], rest);
    hide Opens;
    if verb == ["INSERT"] {
      assert verb + ["INTO"] == ["INSERT", "INTO"];
    } else {
      NotThat(ts, ["INSERT", "INTO"], if verb == ["REPLACE"] then 0 else 1);
      if verb == ["INSERT", "IGNORE"] {
        assert verb + ["INTO"] == ["INSERT", "IGNORE", "INTO"];
      } else {
        NotThat(ts, ["INSERT", "IGNORE", "INTO"], if verb == ["REPLACE"] then 0 else 1);
        if verb == ["INSERT", "OR", "REPLACE"] {
          assert verb + ["INTO"] == ["INSERT", "OR", "REPLACE", "INTO"];
        } else {
          assert verb == ["REPLACE"];
          NotThat(ts, ["INSERT", "OR", "REPLACE", "INTO"], 0);
          assert verb + ["INTO"] == ["REPLACE", "INTO"];
        }
      }
    }
  }

  lemma NameListParses(names: seq<string>, rest: seq<Token>)
    ensures ParseNameList(ParenTokens(NameParts(names)) + rest) == if names == [] then None else Some((names, rest))
  {
    var ts := ParenTokens(NameParts(names)) + rest;
    if names == [] {
      assert ts[1..] == [Punct(')')] + rest;
      assert ParseNames(ts[1..]).None?;
    } else {
      var list := CommaTokens(NameParts(names));
      assert ts[1..] == list + ([Punct(')')] + rest);
      NamesParse(names, [Punct(')')] + rest);
      assert ([Punct(')')] + rest)[1..] == rest;
    }
  }

  /** The parameters of the tuples: row `r`, column `c` reads `Parameter(from + r * k + c)`. */
  function TupleTerms(from: nat, count: nat, k: nat): (r: seq<seq<Term>>)
    ensures |r| == count && forall i :: 0 <= i < count ==> r[i] == Parameters(from + i * k, k)
  {
    seq(count, i requires 0 <= i => Parameters(from + i * k, k))
  }

  function PartsFrom(from: nat, count: nat, k: nat): (r: seq<seq<Token>>)
    ensures |r| == count && forall i :: 0 <= i < count ==> r[i] == TupleTokens(from + i * k, k)
  {
    seq(count, i requires 0 <= i => TupleTokens(from + i * k, k))
  }

  lemma PartsShift(from: nat, count: nat, k: nat)
    requires count > 0
    ensures PartsFrom(from, count, k)[1..] == PartsFrom(from + k, count - 1, k)
    ensures TupleTerms(from, count, k) == [Parameters(from, k)] + TupleTerms(from + k, count - 1, k)
  {
    hide TupleTokens, Parameters;
    forall i | 0 <= i < count - 1 ensures from + (i + 1) * k == from + k + i * k {
      NextMultiple(i, k);
    }
    assert from + 0 * k == from;
  }

  lemma OneTupleParses(n: nat, k: nat, rest: seq<Token>)
    requires k > 0
    ensures
      var ts := TupleTokens(n, k) + rest;
      ts != [] && ts[0] == Punct('(') && ParseTerms(ts[1..]) == Some((Parameters(n, k), rest))
  {
    var ts := TupleTokens(n, k) + rest;
    BindsParse(n, k, rest);
    assert ts[1..] == BindTokens(n, k) + [Punct(')')] + rest;
  }

  lemma {:induction false} TuplesParse(from: nat, count: nat, k: nat, rest: seq<Token>)
    requires count > 0 && k > 0 && (rest == [] || rest[0] != Punct(','))
    ensures ParseTuples(CommaTokens(PartsFrom(from, count, k)) + rest) == Some((TupleTerms(from, count, k), rest))
    decreases count
  {
    hide TupleTokens, Parameters, ParseTerms;
    var parts := PartsFrom(from, count, k);
    PartsShift(from, count, k);
    assert parts[0] == TupleTokens(from + 0 * k, k) == TupleTokens(from, k);
    if count == 1 {
      OneTupleParses(from, k, rest);
      assert TupleTerms(from, 1, k) == [Parameters(from, k)];
    } else {
      var more := CommaTokens(parts[1..]);
      TuplesParse(from + k, count - 1, k, rest);
      OneTupleParses(from, k, [Punct(',')] + (more + rest));
      AppendTwice(parts[0], [Punct(',')] + more, rest);
      AppendTwice([Punct(',')], more, rest);
      assert ([Punct(',')] + (more + rest))[1..] == more + rest;
    }
  }

  /** What the statement says: row `r` binds the values from `r * |columns|` on. */
  function InsertionOf(d: Dialect, table: string, c: Tables.Conflict, columns: seq<string>, count: nat): Insertion {
    Insertion(Verb(d, c), table, columns, TupleTerms(0, count, |columns|),
              if c.Ignore? && !d.Mysql? then DoNothing else Refuse, !d.Mysql?)
  }

  lemma HeadRegroup(verb: seq<string>, table: string, columns: seq<string>, rest: seq<Token>)
    ensures HeadTokensOf(verb, table, columns) + rest ==
      WordTokens(verb) + [Keyword("INTO")] + ([Ident(table)] + (ParenTokens(NameParts(columns)) + ([Keyword("VALUES")] + rest)))
  {
  }

  /** The head reads back if and only if it lists a column. */
  lemma InsertHeadParses(verb: seq<string>, table: string, columns: seq<string>, rest: seq<Token>)
    requires verb in VERBS
    ensures ParseInsertion(HeadTokensOf(verb, table, columns) + rest) ==
      if columns == [] then None else ParseRows(verb, table, columns, rest)
  {
    hide ParseRows, ParseVerb, ParseNameList, ParenTokens, WordTokens, NameParts;
    var list := ParenTokens(NameParts(columns)) + ([Keyword("VALUES")] + rest);
    HeadRegroup(verb, table, columns, rest);
    VerbParses(verb, [Ident(table)] + list);
    assert ([Ident(table)] + list)[1..] == list;
    NameListParses(columns, [Keyword("VALUES")] + rest);
    assert ([Keyword("VALUES")] + rest)[1..] == rest;
  }

  lemma ReturningParses(d: Dialect)
    ensures ParseReturning(ReturningTokens(d)) == Some(!d.Mysql?)
  {
  }

  lemma IgnoreParses(d: Dialect, c: Tables.Conflict)
    ensures ParseAction(IgnoreTokens(d, c) + ReturningTokens(d)) ==
      Some((if c.Ignore? && !d.Mysql? then DoNothing else Refuse, ReturningTokens(d)))
  {
    var ts := IgnoreTokens(d, c) + ReturningTokens(d);
    if c.Ignore? && !d.Mysql? {
      WordsOpen(ON_CONFLICT + ["DO", "NOTHING"], ReturningTokens(d));
    } else {
      assert ts == ReturningTokens(d);
      assert ts != [] ==> ts[0] != Keyword("ON");
      NothingOpens(ts);
    }
  }

  lemma NothingOpens(ts: seq<Token>)
    requires ts == [] || ts[0] != Keyword("ON")
    ensures !Opens(ts, ON_CONFLICT + ["DO", "NOTHING"]) && !Opens(ts, ON_CONFLICT) && !Opens(ts, ON_DUPLICATE)
  {
  }

  lemma SameParts(count: nat, k: nat)
    ensures TupleParts(count, k) == PartsFrom(0, count, k)
  {
  }

  lemma RowsParse(verb: seq<string>, table: string, columns: seq<string>, count: nat, after: seq<Token>, action: Action,
                  d: Dialect)
    requires columns != [] && count > 0 && (after == [] || after[0] != Punct(','))
    requires ParseAction(after) == Some((action, ReturningTokens(d)))
    ensures ParseRows(verb, table, columns, CommaTokens(TupleParts(count, |columns|)) + after) ==
      Some(Insertion(verb, table, columns, TupleTerms(0, count, |columns|), action, !d.Mysql?))
  {
    hide ParseTuples, ParseAction, ParseReturning, CommaTokens, ReturningTokens, TupleTokens, Parameters;
    SameParts(count, |columns|);
    TuplesParse(0, count, |columns|, after);
    ReturningParses(d);
  }

  /** Lexing and parsing the compiled INSERT recovers table and columns, and for each row and column the
      index of the value bound for it; it is no statement exactly when no row has any field. */
  lemma InsertRoundTrip(d: Dialect, table: string, c: Tables.Conflict, columns: seq<string>, count: nat)
    requires count > 0
    ensures ParseInsertion(Lex(d, TextOf(d, InsertPhrase(d, table, c, columns, count)), 0)) ==
      if columns == [] then None else Some(InsertionOf(d, table, c, columns, count))
  {
    hide InsertPhrase, ParseInsertion, ParseRows, ParseAction, HeadTokensOf, CommaTokens, ReturningTokens, IgnoreTokens, Verb,
      Spaced, InOrder, TupleParts, TupleTerms;
    InsertReads(d, table, c, columns, count);
    LexPhrase(d, InsertPhrase(d, table, c, columns, count), 0);
    VerbWords(d, c);
    var after := IgnoreTokens(d, c) + ReturningTokens(d);
    var head, list := HeadTokensOf(Verb(d, c), table, columns), CommaTokens(TupleParts(count, |columns|));
    AppendTwice(head + list, IgnoreTokens(d, c), ReturningTokens(d));
    AppendTwice(head, list, after);
    InsertHeadParses(Verb(d, c), table, columns, list + after);
    if columns != [] {
      IgnoreParses(d, c);
      AfterIsNoComma(d, c);
      RowsParse(Verb(d, c), table, columns, count, after, if c.Ignore? && !d.Mysql? then DoNothing else Refuse, d);
    }
  }

  lemma AfterIsNoComma(d: Dialect, c: Tables.Conflict)
    ensures
      var after := IgnoreTokens(d, c) + ReturningTokens(d);
      after == [] || after[0] != Punct(',')
  {
  }

  // ----- every cell is bound to its value, and no value is in the text -----

  /** Executed, the statement's tuple for a row holds under each column the row's value, or null. */
  lemma InsertBindsEveryCell(model: Model, rows: seq<Assignments>, r: nat, c: nat)
    requires r < |rows| && c < |InsertColumns(model, rows)|
    ensures
      var columns := InsertColumns(model, rows);
      var term := TupleTerms(0, |rows|, |columns|)[r][c];
      && term == Parameter(r * |columns| + c)
      && TermValue(map[], Matrix(rows, columns), term) == FieldOf(DictOf(rows[r]), columns[c])
  {
    hide InsertColumns, DictOf, FieldOf, Matrix;
    MatrixAt(rows, InsertColumns(model, rows), r, c);
  }

  /** Two inserts have one text if and only if they list the same columns for as many rows. */
  lemma InsertTextIsItsShape(d: Dialect, table: string, c: Tables.Conflict, columns: seq<string>, count: nat,
                             others: seq<string>, count': nat)
    requires count > 0 && count' > 0 && columns != [] && others != []
    ensures TextOf(d, InsertPhrase(d, table, c, columns, count)) == TextOf(d, InsertPhrase(d, table, c, others, count')) <==>
      columns == others && count == count'
  {
    hide InsertPhrase, ParseInsertion, TextOf, TupleTerms, Verb;
    InsertRoundTrip(d, table, c, columns, count);
    InsertRoundTrip(d, table, c, others, count');
    if TextOf(d, InsertPhrase(d, table, c, columns, count)) == TextOf(d, InsertPhrase(d, table, c, others, count')) {
      assert InsertionOf(d, table, c, columns, count) == InsertionOf(d, table, c, others, count');
      assert InsertionOf(d, table, c, columns, count).tuples == TupleTerms(0, count, |columns|);
      assert |TupleTerms(0, count, |columns|)| == |TupleTerms(0, count', |others|)|;
    }
  }

  predicate AllDeclared(model: Model, rows: seq<Assignments>) {
    forall n :: n in Present(rows) ==> n in model.fields + model.links
  }

  lemma SomeBeyond(names: seq<string>, n: nat, known: seq<string>)
    requires n <= |names| && forall i :: n <= i < |names| ==> names[i] !in known
    ensures n < |names| ==> exists i :: 0 <= i < |names| && names[i] !in known
  {
    if n < |names| {
      assert names[n] !in known;
    }
  }

  lemma DeclaredColumns(model: Model, rows: seq<Assignments>)
    requires AllDeclared(model, rows)
    ensures InsertColumns(model, rows) == Firsts(OnlyPresent(model.fields + model.links, Present(rows)))
  {
    hide Firsts, OnlyPresent, KeysOf;
    var kept := OnlyPresent(model.fields + model.links, Present(rows));
    var columns: seq<string> := InsertColumns(model, rows);
    OnlyHold(model.fields + model.links, Present(rows));
    FirstsPrefix(kept, KeysOf(rows));
    FirstsHold(kept + KeysOf(rows));
    forall i | 0 <= i < |columns| ensures columns[i] in kept {
      assert columns[i] in columns && columns[i] in Present(rows);
    }
    SomeBeyond(columns, |Firsts(kept)|, kept);
  }

  /** Rows with the same keys are inserted by the same text, whatever their values: the same keys as a set
      when all are declared, else in the same order. */
  lemma SameKeysSameText(d: Dialect, model: Model, rows: seq<Assignments>, others: seq<Assignments>, c: Tables.Conflict)
    requires rows != [] && |rows| == |others|
    requires KeysOf(rows) == KeysOf(others) || (Present(rows) == Present(others) && AllDeclared(model, rows))
    ensures
      TextOf(d, InsertPhrase(d, model.name, c, InsertColumns(model, rows), |rows|)) ==
      TextOf(d, InsertPhrase(d, model.name, c, InsertColumns(model, others), |others|))
  {
    if KeysOf(rows) != KeysOf(others) {
      DeclaredColumns(model, rows);
      DeclaredColumns(model, others);
    }
  }

  // ----- reading an UPSERT back -----

  /** Assignments written as a column, `=` and one token. */
  function SetParts(items: seq<(string, Token)>): (r: seq<seq<Token>>)
    ensures |r| == |items| && forall i :: 0 <= i < |r| ==> r[i] == [Ident(items[i].0), Op("="), items[i].1]
  {
    seq(|items|, i requires 0 <= i < |items| => [Ident(items[i].0), Op("="), items[i].1])
  }

  ghost predicate Terms(items: seq<(string, Token)>, sets: Sets) {
    |sets| == |items| && forall i :: 0 <= i < |items| ==> sets[i].0 == items[i].0 && ParseTerm(items[i].1) == Some(sets[i].1)
  }

  lemma OneSetParses(item: (string, Token), set_: (string, Term), rest: seq<Token>)
    requires ParseTerm(item.1) == Some(set_.1) && set_.0 == item.0
    ensures rest == [] || rest[0] != Punct(',') ==> ParseSets([Ident(item.0), Op("="), item.1] + rest) == Some(([set_], rest))
    ensures rest != [] && rest[0] == Punct(',') && ParseSets(rest[1..]).Some? ==>
      var more := ParseSets(rest[1..]).value;
      ParseSets([Ident(item.0), Op("="), item.1] + rest) == Some(([set_] + more.0, more.1))
  {
    var ts := [Ident(item.0), Op("="), item.1] + rest;
    assert ts[3..] == rest;
    assert rest != [] ==> ts[4..] == rest[1..];
  }

  lemma {:induction false} SetsParse(items: seq<(string, Token)>, sets: Sets, rest: seq<Token>)
    requires items != [] && Terms(items, sets) && (rest == [] || rest[0] != Punct(','))
    ensures ParseSets(CommaTokens(SetParts(items)) + rest) == Some((sets, rest))
    decreases |items|
  {
    hide ParseSets, ParseTerm;
    if |items| == 1 {
      OneSetParses(items[0], sets[0], rest);
      assert sets == [sets[0]];
    } else {
      var more := CommaTokens(SetParts(items[1..]));
      var tail := [Punct(',')] + (more + rest);
      assert SetParts(items)[1..] == SetParts(items[1..]);
      SetsParse(items[1..], sets[1..], rest);
      assert tail[1..] == more + rest;
      OneSetParses(items[0], sets[0], tail);
      AppendTwice(SetParts(items)[0], [Punct(',')] + more, rest);
      AppendTwice([Punct(',')], more, rest);
      assert sets == [sets[0]] + sets[1..];
    }
  }

  /** What the SET list assigns: the values, bound from index `n` on, or else the columns themselves. */
  function SetItems(d: Dialect, key: Assignments, values: Assignments, n: nat): (r: seq<(string, Token)>)
    ensures |r| == if values != [] then |values| else |KeptColumns(d, key)|
  {
    if values != [] then seq(|values|, i requires 0 <= i < |values| => (values[i].0, Bind(n + i)))
    else seq(|KeptColumns(d, key)|, i requires 0 <= i < |KeptColumns(d, key)| => (KeptColumns(d, key)[i], Ident(KeptColumns(d, key)[i])))
  }

  function SetTerms(d: Dialect, key: Assignments, values: Assignments, n: nat): (r: Sets)
    ensures Terms(SetItems(d, key, values, n), r)
  {
    if values != [] then seq(|values|, i requires 0 <= i < |values| => (values[i].0, Parameter(n + i)))
    else seq(|KeptColumns(d, key)|, i requires 0 <= i < |KeptColumns(d, key)| => (KeptColumns(d, key)[i], Column(KeptColumns(d, key)[i])))
  }

  lemma KeepReads(column: string, n: nat)
    ensures Tokens(KeepPhrase(column)) == [Ident(column), Op("="), Ident(column)] && Aligned(KeepPhrase(column), n, 0)
  {
    hide Aligned, Tokens;
    TTokens(Ident(column));
    TokenAligned(Ident(column), n);
    ThenTokens(T(Ident(column)), Op("="));
    ThenAligned(T(Ident(column)), Op("="), n, 0);
    ThenTokens(Then(T(Ident(column)), Op("=")), Ident(column));
    ThenAligned(Then(T(Ident(column)), Op("=")), Ident(column), n, 0);
  }

  lemma SetListReads(d: Dialect, key: Assignments, values: Assignments)
    requires SetPhrases(d, key, values) != []
    ensures
      var n := |UpsertColumns(key, values)|;
      && Tokens(ListPhrase(SetPhrases(d, key, values))) == CommaTokens(SetParts(SetItems(d, key, values, n)))
      && Aligned(ListPhrase(SetPhrases(d, key, values)), n, |values|)
  {
    hide Tokens, Aligned, ListPhrase, CommaTokens, UpsertColumns, KeepPhrase, AssignPhrase, KeptColumns;
    var n := |UpsertColumns(key, values)|;
    if values != [] {
      assert SetParts(SetItems(d, key, values, n)) == TargetParts(values, n);
      AssignmentsRead(values, n);
    } else {
      var columns := KeptColumns(d, key);
      var ps := KeepPhrases(columns);
      forall i | 0 <= i < |ps| ensures Tokens(ps[i]) == SetParts(SetItems(d, key, values, n))[i] && Aligned(ps[i], n, 0) {
        KeepReads(columns[i], n);
      }
      ListTokens(ps, SetParts(SetItems(d, key, values, n)));
      ListAligned(ps, n);
    }
  }

  function ActionTokens(d: Dialect, key: Assignments): seq<Token> {
    if d.Mysql? then WordTokens(ON_DUPLICATE)
    else WordTokens(ON_CONFLICT) + ParenTokens(NameParts(Keys(key))) + WordTokens(DO_UPDATE)
  }

  lemma ActionReads(d: Dialect, key: Assignments, n: nat)
    ensures Tokens(ActionPhrase(d, key)) == ActionTokens(d, key) && Aligned(ActionPhrase(d, key), n, 0)
  {
    hide Tokens, Aligned, Words, WordTokens, Parens, ParenTokens, Keys;
    ActionWords();
    if d.Mysql? {
      WordsRead(ON_DUPLICATE, n);
    } else {
      var list := Parens(IdentPhrases(Keys(key)));
      WordsRead(ON_CONFLICT, n);
      NameListReads(Keys(key), n);
      WordsRead(DO_UPDATE, n);
      var a := Words(ON_CONFLICT);
      ThenTokens(a, Punct('('));
      ThenAligned(a, Punct('('), n, 0);
      AppendTokens(Sp(a), list);
      AppendAligned(Sp(a), list, n, 0, 0);
      var b := Append(Sp(a), list);
      ThenTokens(b, Punct('('));
      ThenAligned(b, Punct('('), n, 0);
      AppendTokens(Sp(b), Words(DO_UPDATE));
      AppendAligned(Sp(b), Words(DO_UPDATE), n, 0, 0);
    }
  }

  function SetTokens(d: Dialect, key: Assignments, values: Assignments): seq<Token> {
    var items := SetItems(d, key, values, |UpsertColumns(key, values)|);
    if items == [] then [] else CommaTokens(SetParts(items))
  }

  lemma ThenSets(d: Dialect, before: Phrase, key: Assignments, values: Assignments)
    requires Aligned(before, 0, |UpsertColumns(key, values)|)
    ensures Tokens(AfterSpace(before, SetPhrases(d, key, values))) == Tokens(before) + SetTokens(d, key, values)
    ensures Aligned(AfterSpace(before, SetPhrases(d, key, values)), 0, |UpsertColumns(key, values)| + |values|)
  {
    hide Tokens, Aligned, ListPhrase, CommaTokens, UpsertColumns;
    var n, list := |UpsertColumns(key, values)|, SetPhrases(d, key, values);
    ThenTokens(before, Punct('('));
    ThenAligned(before, Punct('('), 0, n);
    if list != [] {
      SetListReads(d, key, values);
      AppendTokens(Sp(before), ListPhrase(list));
      AppendAligned(Sp(before), ListPhrase(list), 0, n, |values|);
    }
  }

  /** The statement binds the inserted values first and the updated ones after them. */
  lemma UpsertReads(d: Dialect, table: string, key: Assignments, values: Assignments)
    ensures
      var columns := UpsertColumns(key, values);
      && Tokens(UpsertPhrase(d, table, key, values)) ==
           BodyTokens(["INSERT"], table, columns, 1) + ActionTokens(d, key) + SetTokens(d, key, values) + ReturningTokens(d)
      && Aligned(UpsertPhrase(d, table, key, values), 0, |columns| + |values|)
  {
    hide Tokens, Aligned, InsertBody, BodyTokens, ActionPhrase, ActionTokens, AfterSpace, SetPhrases, SetTokens, ReturningPhrase,
      ReturningTokens, UpsertColumns;
    var columns := UpsertColumns(key, values);
    var n := |columns|;
    var body := InsertBody(["INSERT"], table, columns, 1);
    VerbWords(d, Tables.Reject);
    InsertBodyReads(["INSERT"], table, columns, 1);
    ActionReads(d, key, n);
    ThenTokens(body, Punct('('));
    ThenAligned(body, Punct('('), 0, n);
    AppendTokens(Sp(body), ActionPhrase(d, key));
    AppendAligned(Sp(body), ActionPhrase(d, key), 0, n, 0);
    var acted := Append(Sp(body), ActionPhrase(d, key));
    ThenSets(d, acted, key, values);
    ThenReturning(d, AfterSpace(acted, SetPhrases(d, key, values)), n + |values|);
  }

  function ActionOf(d: Dialect, key: Assignments, sets: Sets): Action {
    if d.Mysql? then OnDuplicate(sets) else OnConflict(Keys(key), sets)
  }

  function UpsertionOf(d: Dialect, table: string, key: Assignments, values: Assignments): Insertion {
    var n := |UpsertColumns(key, values)|;
    Insertion(["INSERT"], table, UpsertColumns(key, values), TupleTerms(0, 1, n), ActionOf(d, key, SetTerms(d, key, values, n)), !d.Mysql?)
  }

  lemma DuplicateParses(rest: seq<Token>)
    ensures ParseAction(WordTokens(ON_DUPLICATE) + rest) ==
      if ParseSets(rest).None? then None else Some((OnDuplicate(ParseSets(rest).value.0), ParseSets(rest).value.1))
  {
    hide ParseSets;
    var ts := WordTokens(ON_DUPLICATE) + rest;
    WordsOpen(ON_DUPLICATE, rest);
    NotThat(ts, ON_CONFLICT + ["DO", "NOTHING"], 1);
    NotThat(ts, ON_CONFLICT, 1);
  }

  lemma ConflictParses(names: seq<string>, rest: seq<Token>)
    ensures ParseAction(WordTokens(ON_CONFLICT) + (ParenTokens(NameParts(names)) + (WordTokens(DO_UPDATE) + rest))) ==
      if names == [] || ParseSets(rest).None? then None
      else Some((OnConflict(names, ParseSets(rest).value.0), ParseSets(rest).value.1))
  {
    hide ParseSets, ParseNameList, Opens;
    var after := WordTokens(DO_UPDATE) + rest;
    var list := ParenTokens(NameParts(names)) + after;
    var ts := WordTokens(ON_CONFLICT) + list;
    assert ts[2] == Punct('(');
    NotThat(ts, ON_CONFLICT + ["DO", "NOTHING"], 2);
    WordsOpen(ON_CONFLICT, list);
    NameListParses(names, after);
    WordsOpen(DO_UPDATE, rest);
  }

  lemma ActionParses(d: Dialect, key: Assignments, values: Assignments)
    requires key != [] || values != []
    ensures ParseAction(ActionTokens(d, key) + SetTokens(d, key, values) + ReturningTokens(d)) ==
      if !d.Mysql? && key == [] then None
      else Some((ActionOf(d, key, SetTerms(d, key, values, |UpsertColumns(key, values)|)), ReturningTokens(d)))
  {
    hide ParseAction, ParseSets, WordTokens, ParenTokens, CommaTokens, UpsertColumns;
    var n := |UpsertColumns(key, values)|;
    var items := SetItems(d, key, values, n);
    var rest := SetTokens(d, key, values) + ReturningTokens(d);
    AppendTwice(ActionTokens(d, key), SetTokens(d, key, values), ReturningTokens(d));
    if items != [] {
      SetsParse(items, SetTerms(d, key, values, n), ReturningTokens(d));
    }
    if d.Mysql? {
      DuplicateParses(rest);
    } else {
      ConflictParses(Keys(key), rest);
      AppendTwice(WordTokens(ON_CONFLICT) + ParenTokens(NameParts(Keys(key))), WordTokens(DO_UPDATE), rest);
      AppendTwice(WordTokens(ON_CONFLICT), ParenTokens(NameParts(Keys(key))), WordTokens(DO_UPDATE) + rest);
    }
  }

  lemma RowsFail(verb: seq<string>, table: string, columns: seq<string>, after: seq<Token>)
    requires columns != [] && (after == [] || after[0] != Punct(',')) && ParseAction(after).None?
    ensures ParseRows(verb, table, columns, CommaTokens(TupleParts(1, |columns|)) + after).None?
  {
    hide ParseTuples, ParseAction, CommaTokens, TupleTokens, Parameters;
    SameParts(1, |columns|);
    TuplesParse(0, 1, |columns|, after);
  }

  lemma ActionIsNoComma(d: Dialect, key: Assignments, rest: seq<Token>)
    ensures ActionTokens(d, key) + rest != [] && (ActionTokens(d, key) + rest)[0] == Keyword("ON")
  {
  }

  lemma SomeColumn(key: Assignments, values: Assignments)
    ensures UpsertColumns(key, values) == [] <==> key == [] && values == []
  {
    hide Firsts;
    FirstsHold(Keys(key) + Keys(values));
    if key != [] {
      assert (Keys(key) + Keys(values))[0] in Keys(key) + Keys(values);
    } else if values != [] {
      assert (Keys(key) + Keys(values))[0] in Keys(key) + Keys(values);
    } else {
      assert Firsts([]) == [] by { FirstsOfDistinct([]); }
      assert Keys(key) + Keys(values) == [];
    }
  }

  /** Lexing and parsing the compiled UPSERT recovers table, columns, conflict target and the index of each
      value, inserted or updated; it is no statement exactly when there is no field at all, or, outside
      MySQL, when the key is empty. */
  lemma UpsertRoundTrip(d: Dialect, table: string, key: Assignments, values: Assignments)
    ensures ParseInsertion(Lex(d, TextOf(d, UpsertPhrase(d, table, key, values)), 0)) ==
      if (key == [] && values == []) || (key == [] && !d.Mysql?) then None else Some(UpsertionOf(d, table, key, values))
  {
    hide UpsertPhrase, ParseInsertion, ParseRows, ParseAction, HeadTokensOf, CommaTokens, ReturningTokens, SetTokens, ActionTokens,
      Spaced, InOrder, TupleParts, TupleTerms, UpsertColumns, SetTerms;
    UpsertReads(d, table, key, values);
    LexPhrase(d, UpsertPhrase(d, table, key, values), 0);
    VerbWords(d, Tables.Reject);
    SomeColumn(key, values);
    var columns := UpsertColumns(key, values);
    var action, sets, returning := ActionTokens(d, key), SetTokens(d, key, values), ReturningTokens(d);
    var after := action + sets + returning;
    var head, list := HeadTokensOf(["INSERT"], table, columns), CommaTokens(TupleParts(1, |columns|));
    AppendTwice(head + list, action, sets);
    AppendTwice(head + list, action + sets, returning);
    AppendTwice(head, list, after);
    InsertHeadParses(["INSERT"], table, columns, list + after);
    if columns != [] {
      AppendTwice(action, sets, returning);
      ActionIsNoComma(d, key, sets + returning);
      ActionParses(d, key, values);
      if !d.Mysql? && key == [] {
        RowsFail(["INSERT"], table, columns, after);
      } else {
        RowsParse(["INSERT"], table, columns, 1, after, ActionOf(d, key, SetTerms(d, key, values, |columns|)), d);
      }
    }
  }

  /** Every column of the inserted row is bound to the field of `{**key, **values}`, and every updated
      column once more to its own value. */
  lemma UpsertBindsEveryValue(d: Dialect, key: Assignments, values: Assignments, c: nat, j: nat)
    requires c < |UpsertColumns(key, values)| && j < |values|
    ensures
      var columns := UpsertColumns(key, values);
      var n := |columns|;
      var params := Cells(Tables.Merged(DictOf(key), DictOf(values)), columns) + AssignedValues(values);
      && TermValue(map[], params, TupleTerms(0, 1, n)[0][c]) == FieldOf(DictOf(key) + DictOf(values), columns[c])
      && SetTerms(d, key, values, n)[j].0 == values[j].0
      && TermValue(map[], params, SetTerms(d, key, values, n)[j].1) == values[j].1
  {
    hide UpsertColumns, DictOf, FieldOf;
    var n := |UpsertColumns(key, values)|;
    assert TupleTerms(0, 1, n)[0] == Parameters(0 + 0 * n, n);
  }

  lemma SameNames(a: Assignments, b: Assignments, n: nat)
    requires Keys(a) == Keys(b)
    ensures |a| == |b| && AssignPhrases(a, n) == AssignPhrases(b, n) && (a != [] ==> a[0].0 == b[0].0)
  {
    hide AssignPhrase;
    assert |a| == |Keys(a)| == |b|;
    forall i | 0 <= i < |a| ensures a[i].0 == b[i].0 {
      assert Keys(a)[i] == Keys(b)[i];
    }
  }

  /** The text of an upsert depends on the names of the fields alone. */
  lemma UpsertTextIsItsShape(d: Dialect, table: string, key: Assignments, values: Assignments, key': Assignments, values': Assignments)
    requires Keys(key) == Keys(key') && Keys(values) == Keys(values')
    ensures TextOf(d, UpsertPhrase(d, table, key, values)) == TextOf(d, UpsertPhrase(d, table, key', values'))
  {
    hide TextOf, InsertBody, AfterSpace, With, Keys, Parens, Words, AssignPhrases, KeepPhrases, Firsts;
    SameNames(key, key', 0);
    SameNames(values, values', |UpsertColumns(key, values)|);
  }
}
