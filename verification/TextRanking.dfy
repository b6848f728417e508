/**
  BM25: the score of a row depends on the texts of all the others, through the number of documents, their
  average length, and in how many of them a term occurs. What the formula says, that scores are positive,
  and how one rewritten row makes a paged search miss or repeat others.
 */
module TextRanking {
  import opened Values
  import opened SearchPaging

  /** A ranked text search. Tokenizer and logarithm are parameters; the terms are sorted and distinct. */
  datatype TextSearch = TextSearch(field: string, terms: seq<string>, every: bool, k1: real, b: real,
                                   ln: real -> real, tokenize: string -> seq<string>)
  {
    predicate Valid() {
      k1 > 0.0 && 0.0 <= b <= 1.0
    }
  }

  datatype Document = Document(key: Value, tokens: seq<string>)

  function TextIn(row: Row, field: string): Option<string> {
    if row == [] then None
    else if row[0].0 == field then
      if row[0].1.Scalar? && row[0].1.value.Str? then Some(row[0].1.value.s) else None
    else TextIn(row[1..], field)
  }

  /** The row as a document; a row without text is none. */
  function DocumentOf(q: TextSearch, row: Row): Option<Document> {
    match TextIn(row, q.field)
    case Some(text) => Some(Document(StableKey(row), q.tokenize(text)))
    case None => None
  }

  function Documents(q: TextSearch, rows: seq<Row>): seq<Document> {
    if rows == [] then []
    else
      var d := DocumentOf(q, rows[|rows| - 1]);
      Documents(q, rows[..|rows| - 1]) + if d.Some? then [d.value] else []
  }

  function Occurrences(tokens: seq<string>, t: string): nat {
    if tokens == [] then 0 else (if tokens[0] == t then 1 else 0) + Occurrences(tokens[1..], t)
  }

  function Length(docs: seq<Document>): nat {
    if docs == [] then 0 else |docs[0].tokens| + Length(docs[1..])
  }

  function Mean(sum: nat, n: nat): (r: real)
    requires n > 0
    ensures r >= 0.0
  {
    sum as real / n as real
  }

  function AverageLength(docs: seq<Document>): (r: real)
    requires docs != []
    ensures r >= 1.0
  {
    var mean := Mean(Length(docs), |docs|);
    if mean < 1.0 then 1.0 else mean
  }

  /** The number of documents that hold the term. */
  function Frequency(docs: seq<Document>, t: string): (n: nat)
    ensures n <= |docs|
  {
    if docs == [] then 0 else (if t in docs[0].tokens then 1 else 0) + Frequency(docs[1..], t)
  }

  /** The argument of the logarithm in the inverse document frequency. */
  function Rarity(n: nat, df: nat): (r: real)
    requires df <= n
    ensures r > 1.0
  {
    (n as real - df as real + 0.5) / (df as real + 0.5) + 1.0
  }

  /** The length of a text against the average. */
  function Relative(docs: seq<Document>, tokens: seq<string>): (r: real)
    requires docs != []
    ensures r >= 0.0
  {
    |tokens| as real / AverageLength(docs)
  }

  /** How much the length counts. */
  function Share(b: real, relative: real): (r: real)
    requires 0.0 <= b <= 1.0 && relative >= 0.0
    ensures r >= 0.0
  {
    TimesNotNegative(b, relative);
    1.0 - b + b * relative
  }

  function Norm(q: TextSearch, relative: real): (r: real)
    requires q.Valid() && relative >= 0.0
    ensures r >= 0.0
  {
    TimesNotNegative(q.k1, Share(q.b, relative));
    q.k1 * Share(q.b, relative)
  }

  lemma TimesNotNegative(a: real, x: real)
    requires a >= 0.0 && x >= 0.0
    ensures a * x >= 0.0
  {
  }

  function Saturation(q: TextSearch, docs: seq<Document>, tokens: seq<string>, tf: nat): (r: real)
    requires q.Valid() && docs != [] && tf > 0
    ensures r > 0.0
  {
    var denom := tf as real + Norm(q, Relative(docs, tokens));
    Positive(tf, q.k1);
    (tf as real * (q.k1 + 1.0)) / denom
  }

  lemma Positive(tf: nat, k1: real)
    requires tf > 0 && k1 > 0.0
    ensures tf as real * (k1 + 1.0) > 0.0
  {
  }

  /** What one term adds to the score of a document. */
  function Weight(q: TextSearch, docs: seq<Document>, tokens: seq<string>, t: string): real
    requires q.Valid() && docs != []
  {
    var tf := Occurrences(tokens, t);
    if tf == 0 then 0.0 else q.ln(Rarity(|docs|, Frequency(docs, t))) * Saturation(q, docs, tokens, tf)
  }

  /** The weights of the first n terms. */
  function Sum(q: TextSearch, docs: seq<Document>, tokens: seq<string>, n: nat): real
    requires q.Valid() && docs != [] && n <= |q.terms|
  {
    if n == 0 then 0.0 else Sum(q, docs, tokens, n - 1) + Weight(q, docs, tokens, q.terms[n - 1])
  }

  /** How many of the first n terms the document holds. */
  function Matched(q: TextSearch, tokens: seq<string>, n: nat): (m: nat)
    requires n <= |q.terms|
    ensures m <= n
  {
    if n == 0 then 0 else Matched(q, tokens, n - 1) + if Occurrences(tokens, q.terms[n - 1]) == 0 then 0 else 1
  }

  function ScoreIn(q: TextSearch, docs: seq<Document>, tokens: seq<string>): Option<real>
    requires q.Valid() && docs != []
  {
    var matched := Matched(q, tokens, |q.terms|);
    if matched == 0 || (q.every && matched < |q.terms|) then None else Some(Sum(q, docs, tokens, |q.terms|))
  }

  /** The scores of the first n documents by key. */
  function Scores(q: TextSearch, docs: seq<Document>, n: nat): map<Value, real>
    requires q.Valid() && n <= |docs|
  {
    if n == 0 then map[]
    else
      var score := ScoreIn(q, docs, docs[n - 1].tokens);
      var before := Scores(q, docs, n - 1);
      if score.Some? then before[docs[n - 1].key := score.value] else before
  }

  method CollectDocuments(q: TextSearch, rows: seq<Row>) returns (docs: seq<Document>)
    ensures docs == Documents(q, rows)
  {
    docs := [];
    for i := 0 to |rows|
      invariant docs == Documents(q, rows[..i])
    {
      assert rows[..i + 1][..i] == rows[..i];
      var d := DocumentOf(q, rows[i]);
      if d.Some? {
        docs := docs + [d.value];
      }
    }
    assert rows[..|rows|] == rows;
  }

  method ScoreDocument(q: TextSearch, docs: seq<Document>, df: map<string, nat>, tokens: seq<string>) returns (r: Option<real>)
    requires q.Valid() && docs != []
    requires forall t :: t in q.terms ==> t in df && df[t] == Frequency(docs, t)
    ensures r == ScoreIn(q, docs, tokens)
  {
    hide Saturation, Rarity, Frequency, Occurrences, AverageLength;
    var matched := 0;
    var score := 0.0;
    for i := 0 to |q.terms|
      invariant matched == Matched(q, tokens, i) && score == Sum(q, docs, tokens, i)
    {
      var t := q.terms[i];
      var tf := Occurrences(tokens, t);
      if tf == 0 {
        continue;
      }
      matched := matched + 1;
      score := score + q.ln(Rarity(|docs|, df[t])) * Saturation(q, docs, tokens, tf);
    }
    r := if q.every && matched < |q.terms| then None else if matched > 0 then Some(score) else None;
  }

  method Bm25Scores(q: TextSearch, rows: seq<Row>) returns (out: map<Value, real>)
    requires q.Valid()
    ensures out == Scores(q, Documents(q, rows), |Documents(q, rows)|)
  {
    out := map[];
    var docs := CollectDocuments(q, rows);
    if docs == [] {
      return;
    }
    var df := map t | t in q.terms :: Frequency(docs, t);
    for i := 0 to |docs|
      invariant out == Scores(q, docs, i)
    {
      var score := ScoreDocument(q, docs, df, docs[i].tokens);
      if score.Some? {
        out := out[docs[i].key := score.value];
      }
    }
  }

  /** The scoring of a text search: a row has the score that is recorded under its key. */
  function Bm25(q: TextSearch): Scoring
    requires q.Valid()
  {
    (rows: seq<Row>) =>
      var docs := Documents(q, rows);
      var scores := Scores(q, docs, |docs|);
      (row: Row) => if StableKey(row) in scores then Some(scores[StableKey(row)]) else None
  }

  // ----- what the scores are -----

  lemma {:induction false} DocumentsFrom(q: TextSearch, rows: seq<Row>)
    ensures forall d :: d in Documents(q, rows) <==> exists i :: 0 <= i < |rows| && DocumentOf(q, rows[i]) == Some(d)
    ensures DistinctKeys(rows) ==> forall i, j :: 0 <= i < j < |Documents(q, rows)| ==>
      Documents(q, rows)[i].key != Documents(q, rows)[j].key
  {
    hide TextIn, StableKey;
    if rows != [] {
      var n := |rows| - 1;
      DocumentsFrom(q, rows[..n]);
      assert forall i :: 0 <= i < n ==> rows[..n][i] == rows[i];
      var before := Documents(q, rows[..n]);
      if DistinctKeys(rows) && DocumentOf(q, rows[n]).Some? {
        forall d | d in before ensures d.key != StableKey(rows[n]) {
          var i :| 0 <= i < n && DocumentOf(q, rows[i]) == Some(d);
        }
      }
      forall d | d in Documents(q, rows) ensures exists i :: 0 <= i < |rows| && DocumentOf(q, rows[i]) == Some(d) {
        if d in before {
          var i :| 0 <= i < |rows[..n]| && DocumentOf(q, rows[..n][i]) == Some(d);
          assert DocumentOf(q, rows[i]) == Some(d);
        } else {
          assert DocumentOf(q, rows[n]) == Some(d);
        }
      }
    }
  }

  lemma {:induction false} ScoresByKey(q: TextSearch, docs: seq<Document>, n: nat, key: Value)
    requires q.Valid() && n <= |docs|
    requires forall i, j :: 0 <= i < j < |docs| ==> docs[i].key != docs[j].key
    ensures forall k :: 0 <= k < n && docs[k].key == key ==>
      var score := ScoreIn(q, docs, docs[k].tokens);
      if score.Some? then key in Scores(q, docs, n) && Scores(q, docs, n)[key] == score.value else key !in Scores(q, docs, n)
    ensures (forall k :: 0 <= k < n ==> docs[k].key != key) ==> key !in Scores(q, docs, n)
  {
    hide ScoreIn;
    if n > 0 {
      ScoresByKey(q, docs, n - 1, key);
    }
  }

  /** With distinct keys a row is scored by its own text against all texts, and not at all without one. */
  lemma Bm25OfRow(q: TextSearch, rows: seq<Row>, row: Row)
    requires q.Valid() && DistinctKeys(rows) && row in rows
    ensures
      var d := DocumentOf(q, row);
      Bm25(q)(rows)(row) == if d.None? || Documents(q, rows) == [] then None else ScoreIn(q, Documents(q, rows), d.value.tokens)
    ensures DocumentOf(q, row).Some? ==> Documents(q, rows) != []
  {
    hide ScoreIn;
    var docs := Documents(q, rows);
    DocumentsFrom(q, rows);
    ScoresByKey(q, docs, |docs|, StableKey(row));
    var i :| 0 <= i < |rows| && rows[i] == row;
    if DocumentOf(q, row).Some? {
      assert DocumentOf(q, row).value in docs;
    } else {
      forall k | 0 <= k < |docs| ensures docs[k].key != StableKey(row) {
        assert docs[k] in docs;
        var j :| 0 <= j < |rows| && DocumentOf(q, rows[j]) == Some(docs[k]);
        assert i != j;
      }
    }
  }

  ghost predicate Increasing(ln: real -> real) {
    forall x, y :: 0.0 < x < y ==> ln(x) < ln(y)
  }

  lemma {:induction false} SumPositive(q: TextSearch, docs: seq<Document>, tokens: seq<string>, n: nat)
    requires q.Valid() && docs != [] && n <= |q.terms| && Increasing(q.ln) && q.ln(1.0) == 0.0
    ensures Sum(q, docs, tokens, n) >= 0.0
    ensures Matched(q, tokens, n) > 0 <==> Sum(q, docs, tokens, n) > 0.0
  {
    if n > 0 {
      SumPositive(q, docs, tokens, n - 1);
      var t := q.terms[n - 1];
      var tf := Occurrences(tokens, t);
      if tf > 0 {
        assert q.ln(Rarity(|docs|, Frequency(docs, t))) > 0.0;
        assert Weight(q, docs, tokens, t) > 0.0;
      }
    }
  }

  /** A score is positive: no term is so frequent that holding it costs. */
  lemma ScoresArePositive(q: TextSearch, docs: seq<Document>, tokens: seq<string>)
    requires q.Valid() && docs != [] && Increasing(q.ln) && q.ln(1.0) == 0.0
    ensures ScoreIn(q, docs, tokens).Some? ==> ScoreIn(q, docs, tokens).value > 0.0
  {
    SumPositive(q, docs, tokens, |q.terms|);
  }

  // ----- a neighbour's text decides -----

  function TextRow(key: int, text: string): Row {
    [("id", Scalar(Int(key))), ("text", Scalar(Str(text)))]
  }

  /** A query for two terms. */
  ghost predicate TwoTerms(q: TextSearch) {
    && q.Valid() && Increasing(q.ln) && q.field == "text" && q.terms == ["a", "b"] && !q.every
    && q.tokenize("a") == ["a"] && q.tokenize("b") == ["b"]
  }

  function ThreeRows(third: string): seq<Row> {
    [TextRow(2, "a"), TextRow(1, "b"), TextRow(3, third)]
  }

  function ThreeDocuments(third: string): seq<Document> {
    [Document(Int(2), ["a"]), Document(Int(1), ["b"]), Document(Int(3), [third])]
  }

  lemma TextRowReads(q: TextSearch, key: int, text: string)
    requires TwoTerms(q) && (text == "a" || text == "b")
    ensures StableKey(TextRow(key, text)) == Int(key)
    ensures DocumentOf(q, TextRow(key, text)) == Some(Document(Int(key), [text]))
  {
    assert |"id"| != |"text"|;
    var rest := TextRow(key, text)[1..];
    assert rest[0] == ("text", Scalar(Str(text)));
    assert TextIn(rest, "text") == Some(text);
    assert TextIn(TextRow(key, text), "text") == Some(text);
    assert q.tokenize(text) == [text];
  }

  lemma ThreeRowsRead(q: TextSearch, third: string)
    requires TwoTerms(q) && (third == "a" || third == "b")
    ensures DistinctKeys(ThreeRows(third)) && Documents(q, ThreeRows(third)) == ThreeDocuments(third)
  {
    hide StableKey, DocumentOf;
    TextRowReads(q, 2, "a");
    TextRowReads(q, 1, "b");
    TextRowReads(q, 3, third);
    var rows := ThreeRows(third);
    assert rows[..2] == [TextRow(2, "a"), TextRow(1, "b")] && rows[..2][..1] == [TextRow(2, "a")];
    assert rows[..2][..1][..0] == [];
    assert Documents(q, rows[..2][..1]) == [Document(Int(2), ["a"])];
    assert Documents(q, rows[..2]) == [Document(Int(2), ["a"]), Document(Int(1), ["b"])];
  }

  lemma FrequenciesOfThree(third: string)
    requires third == "a" || third == "b"
    ensures Frequency(ThreeDocuments(third), "a") == if third == "a" then 2 else 1
    ensures Frequency(ThreeDocuments(third), "b") == if third == "b" then 2 else 1
    ensures AverageLength(ThreeDocuments(third)) == 1.0
  {
    var docs := ThreeDocuments(third);
    assert docs[1..] == [docs[1], docs[2]] && docs[1..][1..] == [docs[2]] && docs[1..][1..][1..] == [];
    assert Length(docs[1..]) == 2 && Length(docs) == 3;
  }

  lemma SaturationOfOne(q: TextSearch, third: string, x: string)
    requires TwoTerms(q) && (third == "a" || third == "b")
    ensures Saturation(q, ThreeDocuments(third), [x], 1) == 1.0
  {
    FrequenciesOfThree(third);
    assert Relative(ThreeDocuments(third), [x]) == 1.0;
    assert Norm(q, 1.0) == q.k1;
  }

  lemma OccursOnce(x: string, t: string)
    ensures Occurrences([x], t) == if x == t then 1 else 0
  {
    assert [x][1..] == [];
  }

  lemma WeightOfOne(q: TextSearch, third: string, x: string, t: string)
    requires TwoTerms(q) && (third == "a" || third == "b")
    ensures Weight(q, ThreeDocuments(third), [x], t) ==
      if x == t then q.ln(Rarity(3, Frequency(ThreeDocuments(third), t))) else 0.0
    ensures Occurrences([x], t) == if x == t then 1 else 0
  {
    hide Frequency, Rarity, Saturation, Occurrences;
    OccursOnce(x, t);
    SaturationOfOne(q, third, x);
    var docs := ThreeDocuments(third);
    assert |docs| == 3;
    var rare := q.ln(Rarity(3, Frequency(docs, t)));
    TimesOne(rare, Saturation(q, docs, [x], 1));
    assert x == t ==> Weight(q, docs, [x], t) == rare * Saturation(q, docs, [x], 1);
  }

  lemma TimesOne(x: real, one: real)
    requires one == 1.0
    ensures x * one == x
  {
  }

  /** A text of one term is scored by the rarity of that term alone. */
  lemma OneTermScore(q: TextSearch, third: string, x: string)
    requires TwoTerms(q) && (third == "a" || third == "b") && (x == "a" || x == "b")
    ensures ScoreIn(q, ThreeDocuments(third), [x]) == Some(q.ln(Rarity(3, Frequency(ThreeDocuments(third), x))))
  {
    hide Frequency, Rarity, Saturation, Weight, Occurrences;
    var docs := ThreeDocuments(third);
    assert "a"[0] != "b"[0];
    WeightOfOne(q, third, x, "a");
    WeightOfOne(q, third, x, "b");
    assert Sum(q, docs, [x], 1) == Weight(q, docs, [x], "a");
    assert Sum(q, docs, [x], 2) == Weight(q, docs, [x], "a") + Weight(q, docs, [x], "b");
    assert Matched(q, [x], 2) == 1;
  }

  /** The common term of three scores below the rare one. */
  ghost function Rare(q: TextSearch): real {
    q.ln(Rarity(3, 1))
  }

  ghost function Common(q: TextSearch): real {
    q.ln(Rarity(3, 2))
  }

  lemma ScoresOfThree(q: TextSearch, third: string, row: Row)
    requires TwoTerms(q) && (third == "a" || third == "b")
    requires row == TextRow(2, "a") || row == TextRow(1, "b")
    ensures Ranked(ThreeRows(third), Bm25(q), row) && Common(q) < Rare(q)
    ensures Bm25(q)(ThreeRows(third))(row).value ==
      if (row == TextRow(2, "a")) == (third == "a") then Common(q) else Rare(q)
  {
    hide Documents, ScoreIn, DocumentOf, Frequency, Bm25, DistinctKeys, StableKey;
    ThreeRowsRead(q, third);
    TextRowReads(q, 2, "a");
    TextRowReads(q, 1, "b");
    FrequenciesOfThree(third);
    OneTermScore(q, third, "a");
    OneTermScore(q, third, "b");
    Bm25OfRow(q, ThreeRows(third), row);
    assert "a"[0] != "b"[0];
  }

  /** Rewriting one row between two fetches makes another, unchanged row be missed, and a third one, as
      unchanged, be returned twice. */
  lemma ANeighbourDecides(q: TextSearch, fingerprint: int) returns (m: nat, n: nat, k: nat, l: nat)
    requires TwoTerms(q)
    ensures
      var s, t := ThreeRows("b"), ThreeRows("a");
      var missing := FetchAll(Schedule(s, m, t, n), Bm25(q), 1, None, fingerprint);
      var repeating := FetchAll(Schedule(s, k, t, l), Bm25(q), 1, None, fingerprint);
      Finished(missing) && !Returned(Entries(missing), TextRow(1, "b")) && !NoKeyTwice(Entries(repeating))
  {
    hide Bm25, ApplySearch, DistinctKeys, FetchAll, StableKey;
    var s, t := ThreeRows("b"), ThreeRows("a");
    var first, other := TextRow(2, "a"), TextRow(1, "b");
    ThreeRowsRead(q, "b");
    ThreeRowsRead(q, "a");
    TextRowReads(q, 2, "a");
    TextRowReads(q, 1, "b");
    ScoresOfThree(q, "b", first);
    ScoresOfThree(q, "a", first);
    ScoresOfThree(q, "b", other);
    ScoresOfThree(q, "a", other);
    SearchRanked(s, Bm25(q));
    var x, y := EntryOf(s, Bm25(q), first), EntryOf(s, Bm25(q), other);
    assert x in ApplySearch(s, Bm25(q)) && y in ApplySearch(s, Bm25(q));
    assert Before(x.MarkOf(), y.MarkOf()) && !Before(x.MarkOf(), EntryOf(t, Bm25(q), other).MarkOf());
    m, n := OvertakingRowIsMissed(s, t, Bm25(q), fingerprint, other);
    NotLast(s, Bm25(q), x, y);
    k, l := DroppedScoreReturnsTwice(s, t, Bm25(q), fingerprint, first, first);
  }

  lemma NotLast(rows: seq<Row>, score: Scoring, x: Scored, y: Scored)
    requires DistinctKeys(rows) && x in ApplySearch(rows, score) && y in ApplySearch(rows, score)
    requires Before(x.MarkOf(), y.MarkOf())
    ensures !Closes(rows, score, x.row)
  {
    hide ApplySearch, DistinctKeys, Before;
    var ranked := ApplySearch(rows, score);
    SearchRanked(rows, score);
    var j :| 0 <= j < |ranked| && ranked[j] == y;
    var last := ranked[|ranked| - 1];
    assert last in ranked;
    BeforeOrder(x.MarkOf(), y.MarkOf(), x.MarkOf());
    assert last.row == x.row ==> last == x;
  }

  // ----- the formula -----

  /** The frequency part, multiplied out: tf * (k1 + 1) over tf + k1 * (1 - b + b * length / average). */
  lemma SaturationIs(q: TextSearch, docs: seq<Document>, tokens: seq<string>, tf: nat)
    requires q.Valid() && docs != [] && tf > 0
    ensures
      var norm := q.k1 * (1.0 - q.b + q.b * (|tokens| as real / AverageLength(docs)));
      && norm == Norm(q, Relative(docs, tokens))
      && Saturation(q, docs, tokens, tf) * (tf as real + norm) == tf as real * (q.k1 + 1.0)
  {
    var norm := Norm(q, Relative(docs, tokens));
    SaturationBack(q, docs, tokens, tf);
  }

  lemma SaturationBack(q: TextSearch, docs: seq<Document>, tokens: seq<string>, tf: nat)
    requires q.Valid() && docs != [] && tf > 0
    ensures Saturation(q, docs, tokens, tf) * (tf as real + Norm(q, Relative(docs, tokens))) == tf as real * (q.k1 + 1.0)
  {
    hide Norm, Relative;
    DivideBack(tf as real * (q.k1 + 1.0), tf as real + Norm(q, Relative(docs, tokens)));
  }

  lemma DivideBack(a: real, d: real)
    requires d > 0.0
    ensures a / d * d == a
  {
  }

  lemma PositiveFactor(x: real, p: real, r: real)
    requires p > 0.0 && r > 0.0 && r == x * p
    ensures x > 0.0
  {
  }

  lemma ShareGrows(b: real, short: real, long: real)
    requires 0.0 <= b <= 1.0 && 0.0 <= short < long
    ensures b > 0.0 ==> Share(b, short) < Share(b, long)
    ensures b < 1.0 ==> Share(b, short) > 0.0
  {
    TimesNotNegative(b, short);
    if b > 0.0 {
      TimesMonotone(b, short, long, b * short, b * long);
    }
  }

  lemma NormGrows(q: TextSearch, short: real, long: real)
    requires q.Valid() && 0.0 <= short < long
    ensures q.b > 0.0 ==> Norm(q, short) < Norm(q, long)
    ensures q.b < 1.0 ==> Norm(q, short) > 0.0
  {
    hide Norm, Share;
    ShareGrows(q.b, short, long);
    NormIs(q, short);
    NormIs(q, long);
    if q.b > 0.0 {
      TimesMonotone(q.k1, Share(q.b, short), Share(q.b, long), Norm(q, short), Norm(q, long));
    }
    if q.b < 1.0 {
      TimesPositive(q.k1, Share(q.b, short), Norm(q, short));
    }
  }

  lemma NormIs(q: TextSearch, relative: real)
    requires q.Valid() && relative >= 0.0
    ensures Norm(q, relative) == q.k1 * Share(q.b, relative)
  {
  }

  lemma TimesPositive(a: real, x: real, p: real)
    requires a > 0.0 && x > 0.0 && p == a * x
    ensures p > 0.0
  {
  }

  lemma TimesMonotone(a: real, x: real, y: real, p: real, r: real)
    requires a > 0.0 && x < y && p == a * x && r == a * y
    ensures p < r
  {
  }

  /** More occurrences weigh more, but never k1 + 1 or above. */
  lemma SaturationGrows(q: TextSearch, docs: seq<Document>, tokens: seq<string>, tf: nat, more: nat)
    requires q.Valid() && docs != [] && 0 < tf < more && q.b < 1.0
    ensures Saturation(q, docs, tokens, tf) < Saturation(q, docs, tokens, more) < q.k1 + 1.0
  {
    hide Saturation, AverageLength, Norm, Relative;
    SaturationBack(q, docs, tokens, tf);
    SaturationBack(q, docs, tokens, more);
    var relative := Relative(docs, tokens);
    NormGrows(q, relative, relative + 1.0);
    Grows(Saturation(q, docs, tokens, tf), Saturation(q, docs, tokens, more), tf as real, more as real, Norm(q, relative), q.k1 + 1.0);
  }

  lemma Grows(x: real, y: real, m: real, n: real, norm: real, c: real)
    requires 0.0 < m < n && norm > 0.0 && c > 0.0 && x * (m + norm) == m * c && y * (n + norm) == n * c
    ensures x < y < c
  {
    Product(y, m + norm, n + norm, n * c);
    Product(x, n + norm, m + norm, m * c);
    var p, u := (m + norm) * (n + norm), c * norm;
    TimesPositive(m + norm, n + norm, p);
    TimesPositive(c, norm, u);
    TimesPositive(u, n - m, u * (n - m));
    assert (y - x) * p == n * c * (m + norm) - m * c * (n + norm) == u * (n - m);
    PositiveFactor(y - x, p, u * (n - m));
    assert (c - y) * (n + norm) == u;
    PositiveFactor(c - y, n + norm, u);
  }

  lemma Product(y: real, a: real, b: real, z: real)
    requires y * b == z
    ensures y * (a * b) == z * a
  {
  }

  /** Longer texts weigh less. */
  lemma LongerTextsWeighLess(q: TextSearch, docs: seq<Document>, tokens: seq<string>, longer: seq<string>, tf: nat)
    requires q.Valid() && docs != [] && tf > 0 && |tokens| < |longer| && q.b > 0.0
    ensures Saturation(q, docs, tokens, tf) > Saturation(q, docs, longer, tf)
  {
    hide Saturation, AverageLength, Norm, Relative;
    SaturationBack(q, docs, tokens, tf);
    SaturationBack(q, docs, longer, tf);
    LongerIsMore(docs, tokens, longer);
    var short, long := Relative(docs, tokens), Relative(docs, longer);
    NormGrows(q, short, long);
    Positive(tf, q.k1);
    Shrinks(Saturation(q, docs, tokens, tf), Saturation(q, docs, longer, tf), tf as real + Norm(q, short), tf as real + Norm(q, long),
            tf as real * (q.k1 + 1.0));
  }

  lemma LongerIsMore(docs: seq<Document>, tokens: seq<string>, longer: seq<string>)
    requires docs != [] && |tokens| < |longer|
    ensures 0.0 <= Relative(docs, tokens) < Relative(docs, longer)
  {
    Divided(|tokens| as real, |longer| as real, AverageLength(docs));
  }

  lemma Divided(m: real, n: real, a: real)
    requires m < n && a > 0.0
    ensures m / a < n / a
  {
    DivideBack(m, a);
    DivideBack(n, a);
    assert (n / a - m / a) * a == n - m;
    PositiveFactor(n / a - m / a, a, n - m);
  }

  lemma Shrinks(x: real, y: real, d: real, e: real, c: real)
    requires 0.0 < d < e && c > 0.0 && x * d == c && y * e == c
    ensures x > y
  {
    PositiveFactor(y, e, c);
    TimesPositive(y, e - d, y * (e - d));
    assert (x - y) * d == c - y * d == y * (e - d);
    PositiveFactor(x - y, d, y * (e - d));
  }

  /** The average length of the documents, but at least one. */
  lemma AverageIs(docs: seq<Document>)
    requires docs != []
    ensures
      var a := AverageLength(docs);
      if Length(docs) < |docs| then a == 1.0 else a * |docs| as real == Length(docs) as real
  {
    hide Mean, Length;
    MeanIs(Length(docs), |docs|);
  }

  lemma Below(x: real, d: real)
    requires d > 0.0
    ensures x < 1.0 <==> x * d < d
  {
  }

  lemma RatioBelow(x: real, sum: nat, n: nat)
    requires n > 0 && x * n as real == sum as real
    ensures x < 1.0 <==> sum < n
  {
    Below(x, n as real);
  }

  lemma MeanTimes(sum: nat, n: nat)
    requires n > 0
    ensures Mean(sum, n) * n as real == sum as real
  {
    DivideBack(sum as real, n as real);
  }

  lemma MeanIs(sum: nat, n: nat)
    requires n > 0
    ensures Mean(sum, n) * n as real == sum as real
    ensures Mean(sum, n) < 1.0 <==> sum < n
  {
    hide Mean;
    MeanTimes(sum, n);
    RatioBelow(Mean(sum, n), sum, n);
  }

  /** The argument of the logarithm is (n + 1) / (df + 1/2): frequent terms are less rare. */
  lemma RarityIs(n: nat, df: nat)
    requires df <= n
    ensures Rarity(n, df) * (df as real + 0.5) == n as real + 1.0
    ensures forall more: nat :: df < more <= n ==> Rarity(n, more) < Rarity(n, df)
  {
    DivideBack(n as real - df as real + 0.5, df as real + 0.5);
    forall more: nat | df < more <= n ensures Rarity(n, more) < Rarity(n, df) {
      DivideBack(n as real - more as real + 0.5, more as real + 0.5);
      Shrinks(Rarity(n, df), Rarity(n, more), df as real + 0.5, more as real + 0.5, n as real + 1.0);
    }
  }

  ghost function Holding(docs: seq<Document>, t: string, n: nat): set<nat>
    requires n <= |docs|
  {
    set i | 0 <= i < n && t in docs[i].tokens
  }

  /** How often a term occurs, and in how many documents. */
  lemma CountsAre(tokens: seq<string>, docs: seq<Document>, t: string)
    ensures Occurrences(tokens, t) == multiset(tokens)[t]
    ensures Frequency(docs, t) == |Holding(docs, t, |docs|)|
  {
    OccurrencesAre(tokens, t);
    FrequencyIs(docs, t, |docs|);
    assert docs[..|docs|] == docs;
  }

  lemma {:induction false} OccurrencesAre(tokens: seq<string>, t: string)
    ensures Occurrences(tokens, t) == multiset(tokens)[t]
  {
    if tokens != [] {
      OccurrencesAre(tokens[1..], t);
      assert tokens == [tokens[0]] + tokens[1..];
    }
  }

  lemma {:induction false} FrequencyMore(docs: seq<Document>, d: Document, t: string)
    ensures Frequency(docs + [d], t) == Frequency(docs, t) + if t in d.tokens then 1 else 0
  {
    if docs == [] {
      assert [] + [d] == [d] && [d][1..] == [];
    } else {
      assert (docs + [d])[1..] == docs[1..] + [d];
      FrequencyMore(docs[1..], d, t);
    }
  }

  lemma NoneHolding(docs: seq<Document>, t: string)
    ensures Frequency(docs[..0], t) == |Holding(docs, t, 0)|
  {
    assert Holding(docs, t, 0) == {};
  }

  lemma HoldingMore(docs: seq<Document>, t: string, n: nat)
    requires n < |docs|
    ensures |Holding(docs, t, n + 1)| == |Holding(docs, t, n)| + if t in docs[n].tokens then 1 else 0
  {
    var before := Holding(docs, t, n);
    if t in docs[n].tokens {
      assert Holding(docs, t, n + 1) == before + {n} && n !in before;
    } else {
      assert Holding(docs, t, n + 1) == before;
    }
  }

  lemma {:induction false} FrequencyIs(docs: seq<Document>, t: string, n: nat)
    requires n <= |docs|
    ensures Frequency(docs[..n], t) == |Holding(docs, t, n)|
  {
    hide Frequency, Holding;
    if n == 0 {
      NoneHolding(docs, t);
    } else {
      FrequencyIs(docs, t, n - 1);
      assert docs[..n] == docs[..n - 1] + [docs[n - 1]];
      FrequencyMore(docs[..n - 1], docs[n - 1], t);
      HoldingMore(docs, t, n - 1);
    }
  }

  /** A document is scored if it holds a term, or all of them if all are asked for; its score adds up, over the
      terms it holds, the logarithm of the rarity times the frequency part. */
  lemma ScoreIs(q: TextSearch, docs: seq<Document>, tokens: seq<string>)
    requires q.Valid() && docs != []
    ensures
      var score := ScoreIn(q, docs, tokens);
      && (score.Some? <==> if q.every then q.terms != [] && forall t :: t in q.terms ==> t in tokens else exists t :: t in q.terms && t in tokens)
  {
    MatchedIs(q, tokens, |q.terms|);
    assert forall t :: t in q.terms <==> exists i :: 0 <= i < |q.terms| && q.terms[i] == t;
  }

  lemma {:induction false} MatchedIs(q: TextSearch, tokens: seq<string>, n: nat)
    requires n <= |q.terms|
    ensures Matched(q, tokens, n) > 0 <==> exists i :: 0 <= i < n && q.terms[i] in tokens
    ensures Matched(q, tokens, n) == n <==> forall i :: 0 <= i < n ==> q.terms[i] in tokens
  {
    if n > 0 {
      MatchedIs(q, tokens, n - 1);
      OccurrencesAre(tokens, q.terms[n - 1]);
      assert q.terms[n - 1] in tokens <==> multiset(tokens)[q.terms[n - 1]] > 0;
    }
  }

  /** Of a query for one term, the score in full. */
  lemma OneTermScoreIs(q: TextSearch, docs: seq<Document>, tokens: seq<string>, t: string)
    requires q.Valid() && docs != [] && q.terms == [t] && t in tokens
    ensures
      var tf := multiset(tokens)[t];
      tf > 0 && ScoreIn(q, docs, tokens) == Some(q.ln(Rarity(|docs|, Frequency(docs, t))) * Saturation(q, docs, tokens, tf))
  {
    hide Weight;
    OccurrencesAre(tokens, t);
    assert q.terms[0] == t;
    MatchedIs(q, tokens, 1);
    assert Sum(q, docs, tokens, 0) == 0.0;
    assert Sum(q, docs, tokens, 1) == Sum(q, docs, tokens, 0) + Weight(q, docs, tokens, t) == Weight(q, docs, tokens, t);
    assert ScoreIn(q, docs, tokens) == Some(Weight(q, docs, tokens, t));
    WeightIs(q, docs, tokens, t);
  }

  lemma WeightIs(q: TextSearch, docs: seq<Document>, tokens: seq<string>, t: string)
    requires q.Valid() && docs != [] && t in tokens
    ensures
      var tf := multiset(tokens)[t];
      tf > 0 && Weight(q, docs, tokens, t) == q.ln(Rarity(|docs|, Frequency(docs, t))) * Saturation(q, docs, tokens, tf)
  {
    hide Rarity, Frequency, Saturation;
    OccurrencesAre(tokens, t);
  }

  /** One more term adds its own score to that of the terms before it. */
  lemma ScoresAddUp(q: TextSearch, docs: seq<Document>, tokens: seq<string>, t: string)
    requires q.Valid() && docs != [] && !q.every && t in tokens
    ensures
      var more, one, before := q.(terms := q.terms + [t]), q.(terms := [t]), ScoreIn(q, docs, tokens);
      && ScoreIn(one, docs, tokens).Some?
      && ScoreIn(more, docs, tokens) == Some((if before.Some? then before.value else 0.0) + ScoreIn(one, docs, tokens).value)
  {
    hide Weight, Occurrences, Matched;
    var more, one := q.(terms := q.terms + [t]), q.(terms := [t]);
    MatchedIs(one, tokens, 1);
    assert one.terms[0] == t;
    MatchedIs(more, tokens, |more.terms|);
    assert more.terms[|q.terms|] == t;
    SumPrefix(q, more, docs, tokens, |q.terms|);
    WeightIgnoresTerms(q, more, docs, tokens, t);
    WeightIgnoresTerms(q, one, docs, tokens, t);
    assert Sum(one, docs, tokens, 1) == Sum(one, docs, tokens, 0) + Weight(one, docs, tokens, t);
    NothingMatched(q, docs, tokens, |q.terms|);
  }

  lemma WeightIgnoresTerms(q: TextSearch, more: TextSearch, docs: seq<Document>, tokens: seq<string>, t: string)
    requires q.Valid() && docs != [] && more == q.(terms := more.terms)
    ensures Weight(more, docs, tokens, t) == Weight(q, docs, tokens, t)
  {
    hide Frequency, Occurrences, AverageLength, Saturation, Rarity;
    assert more.Valid();
    var tf := Occurrences(tokens, t);
    if tf > 0 {
      SaturationIgnoresTerms(q, more, docs, tokens, tf);
      assert more.ln(Rarity(|docs|, Frequency(docs, t))) == q.ln(Rarity(|docs|, Frequency(docs, t)));
    }
  }

  lemma SaturationIgnoresTerms(q: TextSearch, more: TextSearch, docs: seq<Document>, tokens: seq<string>, tf: nat)
    requires q.Valid() && docs != [] && more == q.(terms := more.terms) && tf > 0
    ensures Saturation(more, docs, tokens, tf) == Saturation(q, docs, tokens, tf)
  {
    hide AverageLength;
    assert Norm(more, Relative(docs, tokens)) == Norm(q, Relative(docs, tokens));
  }

  lemma {:induction false} SumPrefix(q: TextSearch, more: TextSearch, docs: seq<Document>, tokens: seq<string>, n: nat)
    requires q.Valid() && docs != [] && more == q.(terms := more.terms) && n <= |q.terms| && q.terms <= more.terms
    ensures Sum(more, docs, tokens, n) == Sum(q, docs, tokens, n)
  {
    hide Weight;
    if n > 0 {
      SumPrefix(q, more, docs, tokens, n - 1);
      WeightIgnoresTerms(q, more, docs, tokens, q.terms[n - 1]);
    }
  }

  lemma {:induction false} NothingMatched(q: TextSearch, docs: seq<Document>, tokens: seq<string>, n: nat)
    requires q.Valid() && docs != [] && n <= |q.terms|
    ensures Matched(q, tokens, n) == 0 ==> Sum(q, docs, tokens, n) == 0.0
  {
    if n > 0 {
      NothingMatched(q, docs, tokens, n - 1);
    }
  }
}
