/**
  SQL text: the tokens of the statements the compiler writes, how each dialect spells them, and a
  lexer that reads them back. Delimited identifiers and character literals double their quote
  (sections 5.2 and 5.3 of ISO/IEC 9075:1992), and a text is read back exactly when no token in it
  can run into the next.
 */
module SqlText {
  import opened Values

  datatype ParameterStyle = QMark | Numeric | Format

  datatype Dialect = Sqlite | Postgres | Mysql {
    function Style(): ParameterStyle {
      match this
      case Sqlite => QMark
      case Postgres => Numeric
      case Mysql => Format
    }

    function QuoteChar(): char {
      if Mysql? then '`' else '"'
    }
  }

  /** `Bind(i)` is the placeholder of the i-th bound value, counting from 0. */
  datatype Token =
    | Keyword(word: string)
    | Ident(name: string)
    | Bind(index: nat)
    | Number(n: nat)
    | Text(text: string)
    | Punct(c: char)
    | Op(symbol: string)
    | Garbage

  datatype Item = Space | Tok(token: Token)

  // ----- spelling -----

  function Decimal(n: nat): (s: string)
    ensures s != []
  {
    (if n < 10 then [] else Decimal(n / 10)) + [('0' as int + n % 10) as char]
  }

  function DoubleQuotes(s: string, q: char): string {
    if s == [] then [] else (if s[0] == q then [q, q] else [s[0]]) + DoubleQuotes(s[1..], q)
  }

  function Delimit(s: string, q: char): string {
    [q] + DoubleQuotes(s, q) + [q]
  }

  function Placeholder(style: ParameterStyle, number: nat): string {
    match style
    case QMark => "?"
    case Numeric => "$" + Decimal(number)
    case Format => "%s"
  }

  function Spell(d: Dialect, t: Token): string {
    match t
    case Keyword(w) => w
    case Ident(name) => Delimit(name, d.QuoteChar())
    case Bind(i) => Placeholder(d.Style(), i + 1)
    case Number(n) => Decimal(n)
    case Text(s) => Delimit(s, '\'')
    case Punct(c) => [c]
    case Op(s) => s
    case Garbage => []
  }

  function Render(d: Dialect, items: seq<Item>): string {
    if items == [] then []
    else (if items[0].Space? then " " else Spell(d, items[0].token)) + Render(d, items[1..])
  }

  function TokensOf(items: seq<Item>): seq<Token> {
    if items == [] then []
    else (if items[0].Space? then [] else [items[0].token]) + TokensOf(items[1..])
  }

  lemma {:induction false} RenderConcat(d: Dialect, a: seq<Item>, b: seq<Item>)
    ensures Render(d, a + b) == Render(d, a) + Render(d, b)
  {
    if a == [] {
      assert a + b == b;
    } else {
      assert (a + b)[1..] == a[1..] + b;
      RenderConcat(d, a[1..], b);
    }
  }

  lemma {:induction false} TokensConcat(a: seq<Item>, b: seq<Item>)
    ensures TokensOf(a + b) == TokensOf(a) + TokensOf(b)
  {
    if a == [] {
      assert a + b == b;
    } else {
      assert (a + b)[1..] == a[1..] + b;
      TokensConcat(a[1..], b);
    }
  }

  // ----- lexing -----

  predicate IsLetter(c: char) { 'A' <= c <= 'Z' || 'a' <= c <= 'z' }

  predicate IsDigit(c: char) { '0' <= c <= '9' }

  predicate IsPunct(c: char) { c in {'(', ')', ',', '*', '-'} }

  function Letters(s: string): (n: nat)
    ensures n <= |s|
  {
    if s != [] && IsLetter(s[0]) then 1 + Letters(s[1..]) else 0
  }

  function Digits(s: string): (n: nat)
    ensures n <= |s| && forall i :: 0 <= i < n ==> IsDigit(s[i])
  {
    if s != [] && IsDigit(s[0]) then 1 + Digits(s[1..]) else 0
  }

  function NumberOf(s: string): nat
    requires forall i :: 0 <= i < |s| ==> IsDigit(s[i])
  {
    if s == [] then 0
    else
      assert IsDigit(s[|s| - 1]);
      10 * NumberOf(s[..|s| - 1]) + (s[|s| - 1] as int - '0' as int)
  }

  /** Reads up to the closing quote: the text with doubled quotes undone, and what follows. */
  function Undelimit(s: string, q: char): (r: Option<(string, string)>)
    ensures r.Some? ==> |r.value.1| < |s|
  {
    if s == [] then None
    else if s[0] != q then
      var r := Undelimit(s[1..], q);
      if r.None? then None else Some(([s[0]] + r.value.0, r.value.1))
    else if |s| > 1 && s[1] == q then
      var r := Undelimit(s[2..], q);
      if r.None? then None else Some(([q] + r.value.0, r.value.1))
    else Some(([], s[1..]))
  }

  function NumberedBind(s: string): (r: (Token, string))
    ensures |r.1| <= |s|
  {
    var n := Digits(s);
    var number := NumberOf(s[..n]);
    (if number == 0 then Garbage else Bind(number - 1), s[n..])
  }

  /** The first token of `s` and what follows it; `bound` placeholders came before. A positional
      placeholder binds the value at its ordinal, a numbered one the value of its number. */
  function NextToken(d: Dialect, s: string, bound: nat): (r: (Token, string))
    requires s != []
    ensures |r.1| < |s|
  {
    var c := s[0];
    if IsPunct(c) then (Punct(c), s[1..])
    else if c == d.QuoteChar() || c == '\'' then
      var r := Undelimit(s[1..], c);
      if r.None? then (Garbage, [])
      else (if c == '\'' then Text(r.value.0) else Ident(r.value.0), r.value.1)
    else if IsLetter(c) then (Keyword(s[..Letters(s)]), s[Letters(s)..])
    else if IsDigit(c) then (Number(NumberOf(s[..Digits(s)])), s[Digits(s)..])
    else if c == '?' && d.Style().QMark? then (Bind(bound), s[1..])
    else if c == '%' && d.Style().Format? && |s| > 1 && s[1] == 's' then (Bind(bound), s[2..])
    else if c == '$' && d.Style().Numeric? then NumberedBind(s[1..])
    else if c in {'<', '>'} && |s| > 1 && s[1] == '=' then (Op([c, '=']), s[2..])
    else if c == '<' && |s| > 1 && s[1] == '>' then (Op("<>"), s[2..])
    else if c in {'<', '>', '='} then (Op([c]), s[1..])
    else (Garbage, s[1..])
  }

  function Lex(d: Dialect, s: string, bound: nat): seq<Token>
    decreases |s|
  {
    if s == [] then []
    else if s[0] == ' ' then Lex(d, s[1..], bound)
    else
      var (t, rest) := NextToken(d, s, bound);
      [t] + Lex(d, rest, bound + if t.Bind? then 1 else 0)
  }

  // ----- reading back what was written -----

  const OPERATORS: set<string> := {"=", "<>", "<", "<=", ">", ">="}

  predicate Printable(t: Token) {
    match t
    case Keyword(w) => w != [] && forall i :: 0 <= i < |w| ==> IsLetter(w[i])
    case Punct(c) => IsPunct(c)
    case Op(s) => s in OPERATORS
    case Garbage => false
    case _ => true
  }

  /** Items that neither run into what follows nor let what precedes run into them. */
  predicate Neutral(item: Item) {
    item.Space? || item.token.Punct?
  }

  predicate Separable(items: seq<Item>) {
    && (forall i :: 0 <= i < |items| ==> items[i].Tok? ==> Printable(items[i].token))
    && (forall i :: 0 <= i < |items| - 1 ==> Neutral(items[i]) || Neutral(items[i + 1]))
  }

  /** The placeholders are the consecutive indices from `bound` on. */
  function Bound(tokens: seq<Token>): nat {
    if tokens == [] then 0 else (if tokens[0].Bind? then 1 else 0) + Bound(tokens[1..])
  }

  predicate InOrder(tokens: seq<Token>, bound: nat) {
    tokens == [] || (
      if tokens[0].Bind? then tokens[0].index == bound && InOrder(tokens[1..], bound + 1)
      else InOrder(tokens[1..], bound))
  }

  lemma {:induction false} InOrderConcat(a: seq<Token>, b: seq<Token>, bound: nat)
    ensures Bound(a + b) == Bound(a) + Bound(b)
    ensures InOrder(a + b, bound) <==> InOrder(a, bound) && InOrder(b, bound + Bound(a))
  {
    if a == [] {
      assert a + b == b;
    } else {
      assert (a + b)[1..] == a[1..] + b;
      InOrderConcat(a[1..], b, if a[0].Bind? then bound + 1 else bound);
    }
  }

  predicate Ends(s: string) {
    s == [] || s[0] == ' ' || IsPunct(s[0])
  }

  lemma {:induction false} UndelimitDoubled(s: string, q: char, rest: string)
    requires rest == [] || rest[0] != q
    ensures Undelimit(DoubleQuotes(s, q) + [q] + rest, q) == Some((s, rest))
  {
    if s == [] {
      assert DoubleQuotes(s, q) + [q] + rest == [q] + rest;
      assert ([q] + rest)[1..] == rest;
    } else {
      UndelimitDoubled(s[1..], q, rest);
      var tail := DoubleQuotes(s[1..], q) + [q] + rest;
      if s[0] == q {
        assert DoubleQuotes(s, q) + [q] + rest == [q, q] + tail;
        assert ([q, q] + tail)[2..] == tail;
      } else {
        assert DoubleQuotes(s, q) + [q] + rest == [s[0]] + tail;
        assert ([s[0]] + tail)[1..] == tail;
      }
      assert s == [s[0]] + s[1..];
    }
  }

  lemma {:induction false} LettersOf(w: string, rest: string)
    requires forall i :: 0 <= i < |w| ==> IsLetter(w[i])
    requires rest == [] || !IsLetter(rest[0])
    ensures Letters(w + rest) == |w|
  {
    if w == [] {
      assert w + rest == rest;
    } else {
      assert (w + rest)[1..] == w[1..] + rest;
      LettersOf(w[1..], rest);
    }
  }

  lemma {:induction false} DigitsOf(w: string, rest: string)
    requires forall i :: 0 <= i < |w| ==> IsDigit(w[i])
    requires rest == [] || !IsDigit(rest[0])
    ensures Digits(w + rest) == |w|
  {
    if w == [] {
      assert w + rest == rest;
    } else {
      assert (w + rest)[1..] == w[1..] + rest;
      DigitsOf(w[1..], rest);
    }
  }

  lemma {:induction false} DecimalReads(n: nat)
    ensures forall i :: 0 <= i < |Decimal(n)| ==> IsDigit(Decimal(n)[i])
    ensures NumberOf(Decimal(n)) == n
  {
    var s := Decimal(n);
    if n >= 10 {
      DecimalReads(n / 10);
      assert s[..|s| - 1] == Decimal(n / 10);
    } else {
      assert s[..|s| - 1] == [];
    }
  }

  lemma UndelimitText(s: string, q: char, rest: string)
    requires rest == [] || rest[0] != q
    ensures Delimit(s, q) + rest != [] && (Delimit(s, q) + rest)[0] == q
    ensures Undelimit((Delimit(s, q) + rest)[1..], q) == Some((s, rest))
  {
    UndelimitDoubled(s, q, rest);
    assert (Delimit(s, q) + rest)[1..] == DoubleQuotes(s, q) + [q] + rest;
  }

  lemma ReadDelimited(d: Dialect, t: Token, rest: string, bound: nat)
    requires t.Ident? || t.Text?
    requires Ends(rest)
    ensures NextToken(d, Spell(d, t) + rest, bound) == (t, rest)
  {
    if t.Ident? {
      UndelimitText(t.name, d.QuoteChar(), rest);
    } else {
      UndelimitText(t.text, '\'', rest);
    }
  }

  lemma ReadWord(d: Dialect, t: Token, rest: string, bound: nat)
    requires t.Keyword? && Printable(t) && Ends(rest)
    ensures NextToken(d, Spell(d, t) + rest, bound) == (t, rest)
  {
    LettersOf(t.word, rest);
    assert (t.word + rest)[..|t.word|] == t.word && (t.word + rest)[|t.word|..] == rest;
  }

  predicate AllDigits(s: string) {
    s != [] && forall i :: 0 <= i < |s| ==> IsDigit(s[i])
  }

  lemma ReadDigits(d: Dialect, s: string, rest: string, bound: nat)
    requires AllDigits(s) && Ends(rest)
    ensures NextToken(d, s + rest, bound) == (Number(NumberOf(s)), rest)
  {
    DigitsOf(s, rest);
    assert IsDigit((s + rest)[0]);
    assert (s + rest)[..|s|] == s && (s + rest)[|s|..] == rest;
  }

  lemma ReadNumbered(s: string, rest: string, bound: nat)
    requires AllDigits(s) && NumberOf(s) > 0 && Ends(rest)
    ensures NextToken(Postgres, ['$'] + (s + rest), bound) == (Bind(NumberOf(s) - 1), rest)
  {
    DigitsOf(s, rest);
    assert (s + rest)[..|s|] == s && (s + rest)[|s|..] == rest;
    assert NumberedBind(s + rest) == (Bind(NumberOf(s) - 1), rest);
    assert (['$'] + (s + rest))[1..] == s + rest;
  }

  lemma ReadPositional(rest: string, bound: nat)
    ensures NextToken(Sqlite, "?" + rest, bound) == (Bind(bound), rest)
    ensures NextToken(Mysql, "%s" + rest, bound) == (Bind(bound), rest)
  {
    assert ("?" + rest)[1..] == rest && ("%s" + rest)[2..] == rest;
  }

  lemma ReadBind(d: Dialect, rest: string, bound: nat)
    requires Ends(rest)
    ensures NextToken(d, Spell(d, Bind(bound)) + rest, bound) == (Bind(bound), rest)
  {
    if d.Postgres? {
      ReadBindNumber(bound + 1, rest, bound);
    } else {
      ReadPositional(rest, bound);
    }
  }

  lemma ReadBindNumber(number: nat, rest: string, bound: nat)
    requires number > 0 && Ends(rest)
    ensures NextToken(Postgres, "$" + Decimal(number) + rest, bound) == (Bind(number - 1), rest)
  {
    DecimalReads(number);
    ReadBindDigits(Decimal(number), rest, bound);
  }

  lemma ReadBindDigits(s: string, rest: string, bound: nat)
    requires AllDigits(s) && NumberOf(s) > 0 && Ends(rest)
    ensures NextToken(Postgres, "$" + s + rest, bound) == (Bind(NumberOf(s) - 1), rest)
  {
    ReadNumbered(s, rest, bound);
    assert "$" + s + rest == ['$'] + (s + rest);
  }

  lemma ReadSymbol(d: Dialect, t: Token, rest: string, bound: nat)
    requires Printable(t) && ((t.Op? && Ends(rest)) || t.Punct?)
    ensures NextToken(d, Spell(d, t) + rest, bound) == (t, rest)
  {
    var s := Spell(d, t) + rest;
    if t.Punct? {
      assert s[1..] == rest;
    } else if |t.symbol| == 1 {
      assert s[1..] == rest && t.symbol == [s[0]];
    } else {
      assert s[2..] == rest && t.symbol == [s[0], s[1]];
    }
  }

  /** Every token reads back, up to where it was written. */
  lemma ReadToken(d: Dialect, t: Token, rest: string, bound: nat)
    requires Printable(t) && (t.Bind? ==> t.index == bound)
    requires t.Punct? || Ends(rest)
    ensures Spell(d, t) != [] && Spell(d, t)[0] != ' '
    ensures NextToken(d, Spell(d, t) + rest, bound) == (t, rest)
  {
    match t
    case Keyword(_) => ReadWord(d, t, rest, bound);
    case Number(n) =>
      DecimalReads(n);
      ReadDigits(d, Decimal(n), rest, bound);
    case Bind(_) => ReadBind(d, rest, bound);
    case Ident(_) => ReadDelimited(d, t, rest, bound);
    case Text(_) => ReadDelimited(d, t, rest, bound);
    case _ => ReadSymbol(d, t, rest, bound);
  }

  lemma RenderEnds(d: Dialect, items: seq<Item>)
    requires items == [] || Neutral(items[0])
    requires items != [] && items[0].Tok? ==> Printable(items[0].token)
    ensures Ends(Render(d, items))
  {
  }

  lemma SeparableRest(items: seq<Item>)
    requires items != [] && Separable(items)
    ensures Separable(items[1..])
    ensures |items| > 1 ==> Neutral(items[0]) || Neutral(items[1])
  {
    forall i | 0 <= i < |items[1..]| - 1 ensures Neutral(items[1..][i]) || Neutral(items[1..][i + 1]) {
      assert items[1..][i] == items[i + 1] && items[1..][i + 1] == items[i + 2];
    }
  }

  lemma LexSpace(d: Dialect, rest: string, bound: nat)
    ensures Lex(d, [], bound) == [] && Lex(d, " " + rest, bound) == Lex(d, rest, bound)
  {
    assert (" " + rest)[1..] == rest;
  }

  /** The text of a statement lexes to the tokens it was written from: each identifier is
      recovered exactly, and the i-th placeholder binds the i-th value. */
  lemma {:induction false} LexRender(d: Dialect, items: seq<Item>, bound: nat)
    requires Separable(items) && InOrder(TokensOf(items), bound)
    ensures Lex(d, Render(d, items), bound) == TokensOf(items)
  {
    hide Lex, Spell, Ends;
    LexSpace(d, [], bound);
    if items != [] {
      SeparableRest(items);
      var rest := Render(d, items[1..]);
      if items[0].Space? {
        LexSpace(d, rest, bound);
        assert TokensOf(items) == TokensOf(items[1..]);
        LexRender(d, items[1..], bound);
        assert Render(d, items) == " " + rest && (" " + rest)[1..] == rest;
      } else {
        var t := items[0].token;
        assert TokensOf(items) == [t] + TokensOf(items[1..]);
        assert ([t] + TokensOf(items[1..]))[1..] == TokensOf(items[1..]);
        LexRender(d, items[1..], bound + if t.Bind? then 1 else 0);
        if !t.Punct? {
          RenderEnds(d, items[1..]);
        }
        LexToken(d, t, rest, bound);
      }
    }
  }

  lemma LexToken(d: Dialect, t: Token, rest: string, bound: nat)
    requires Printable(t) && (t.Bind? ==> t.index == bound)
    requires t.Punct? || Ends(rest)
    ensures Lex(d, Spell(d, t) + rest, bound) == [t] + Lex(d, rest, bound + if t.Bind? then 1 else 0)
  {
    ReadToken(d, t, rest, bound);
    assert (Spell(d, t) + rest)[0] == Spell(d, t)[0];
  }

  // ----- phrases -----

  /** A piece of a statement, built up the way the compiler concatenates its text. */
  datatype Phrase = Leaf(item: Item) | Cat(l: Phrase, r: Phrase)

  function T(t: Token): (p: Phrase)
    ensures forall d: Dialect :: TextOf(d, p) == Spell(d, t)
  {
    Leaf(Tok(t))
  }

  function Append(l: Phrase, r: Phrase): (p: Phrase)
    ensures forall d: Dialect :: TextOf(d, p) == TextOf(d, l) + TextOf(d, r)
  {
    Cat(l, r)
  }

  function Sp(l: Phrase): (p: Phrase)
    ensures forall d: Dialect :: TextOf(d, p) == TextOf(d, l) + " "
  {
    Cat(l, Leaf(Space))
  }

  /** `l`, a space, and a token. */
  function Then(l: Phrase, t: Token): (p: Phrase)
    ensures forall d: Dialect :: TextOf(d, p) == TextOf(d, l) + " " + Spell(d, t)
  {
    Append(Sp(l), T(t))
  }

  lemma TTokens(t: Token)
    ensures Tokens(T(t)) == [t] && Spaced(T(t)) == Printable(t) && First(T(t)) == Last(T(t)) == Tok(t)
  {
  }

  lemma AppendTokens(l: Phrase, r: Phrase)
    ensures Tokens(Append(l, r)) == Tokens(l) + Tokens(r)
    ensures First(Append(l, r)) == First(l) && Last(Append(l, r)) == Last(r)
    ensures Spaced(Append(l, r)) <==> Spaced(l) && Spaced(r) && (Neutral(Last(l)) || Neutral(First(r)))
  {
  }

  lemma ThenTokens(l: Phrase, t: Token)
    ensures Tokens(Sp(l)) == Tokens(l) && First(Sp(l)) == First(l) && Last(Sp(l)) == Space && Spaced(Sp(l)) == Spaced(l)
    ensures Tokens(Then(l, t)) == Tokens(l) + [t] && First(Then(l, t)) == First(l) && Last(Then(l, t)) == Tok(t)
    ensures Spaced(Then(l, t)) <==> Spaced(l) && Printable(t)
  {
    AppendTokens(Sp(l), T(t));
    TTokens(t);
  }

  function TextOf(d: Dialect, p: Phrase): string {
    match p
    case Leaf(item) => if item.Space? then " " else Spell(d, item.token)
    case Cat(l, r) => TextOf(d, l) + TextOf(d, r)
  }

  function Tokens(p: Phrase): seq<Token> {
    match p
    case Leaf(item) => if item.Space? then [] else [item.token]
    case Cat(l, r) => Tokens(l) + Tokens(r)
  }

  ghost function Items(p: Phrase): (items: seq<Item>)
    ensures items != []
  {
    match p
    case Leaf(item) => [item]
    case Cat(l, r) => Items(l) + Items(r)
  }

  function First(p: Phrase): Item {
    if p.Leaf? then p.item else First(p.l)
  }

  function Last(p: Phrase): Item {
    if p.Leaf? then p.item else Last(p.r)
  }

  /** No token of the phrase runs into the next. */
  predicate Spaced(p: Phrase) {
    match p
    case Leaf(item) => item.Space? || Printable(item.token)
    case Cat(l, r) => Spaced(l) && Spaced(r) && (Neutral(Last(l)) || Neutral(First(r)))
  }

  lemma {:induction false} PhraseItems(d: Dialect, p: Phrase)
    ensures TextOf(d, p) == Render(d, Items(p))
    ensures Tokens(p) == TokensOf(Items(p))
  {
    match p
    case Leaf(item) =>
      assert [item][1..] == [] && Render(d, []) == [] && TokensOf([]) == [];
    case Cat(l, r) =>
      PhraseItems(d, l);
      PhraseItems(d, r);
      RenderConcat(d, Items(l), Items(r));
      TokensConcat(Items(l), Items(r));
  }

  lemma {:induction false} PhraseSeparable(p: Phrase)
    requires Spaced(p)
    ensures First(p) == Items(p)[0] && Last(p) == Items(p)[|Items(p)| - 1]
    ensures Separable(Items(p))
  {
    if p.Cat? {
      PhraseSeparable(p.l);
      PhraseSeparable(p.r);
      SeparableConcat(Items(p.l), Items(p.r));
    }
  }

  lemma SeparableConcat(a: seq<Item>, b: seq<Item>)
    requires Separable(a) && Separable(b) && a != [] && b != []
    requires Neutral(a[|a| - 1]) || Neutral(b[0])
    ensures Separable(a + b)
  {
    var ab := a + b;
    forall i | 0 <= i < |ab| - 1 ensures Neutral(ab[i]) || Neutral(ab[i + 1]) {
      if i < |a| - 1 {
        assert Neutral(a[i]) || Neutral(a[i + 1]);
      } else if i >= |a| {
        assert Neutral(b[i - |a|]) || Neutral(b[i - |a| + 1]);
      }
    }
  }

  /** The text of a phrase lexes to the tokens it was written from: each identifier is recovered
      exactly, and the i-th placeholder binds the i-th value. */
  lemma LexPhrase(d: Dialect, p: Phrase, bound: nat)
    requires Spaced(p) && InOrder(Tokens(p), bound)
    ensures Lex(d, TextOf(d, p), bound) == Tokens(p)
  {
    PhraseItems(d, p);
    PhraseSeparable(p);
    LexRender(d, Items(p), bound);
  }
}
