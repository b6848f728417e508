/**
  The LIKE predicate of SQL (section 8.5 of ISO/IEC 9075:1992) and the escaping the compiler
  applies to the value of a contains, startswith or endswith filter.
 */
module SqlLike {
  import opened Values
  import opened Predicates

  // ----- LIKE -----

  datatype Element = AnyString | AnyChar | Exactly(c: char)

  /** The elements of a pattern; None when an escape character does not precede `%`, `_` or itself. */
  function Elements(pattern: string, escape: Option<char>): Option<seq<Element>> {
    if pattern == [] then Some([])
    else if escape == Some(pattern[0]) then
      if |pattern| > 1 && pattern[1] in {'%', '_', pattern[0]} then
        var rest := Elements(pattern[2..], escape);
        if rest.None? then None else Some([Exactly(pattern[1])] + rest.value)
      else None
    else
      var rest := Elements(pattern[1..], escape);
      if rest.None? then None
      else
        var e := if pattern[0] == '%' then AnyString else if pattern[0] == '_' then AnyChar else Exactly(pattern[0]);
        Some([e] + rest.value)
  }

  predicate ElementsMatch(s: string, es: seq<Element>)
    decreases |s| + |es|
  {
    if es == [] then s == []
    else
      match es[0]
      case AnyString => ElementsMatch(s, es[1..]) || (s != [] && ElementsMatch(s[1..], es))
      case AnyChar => s != [] && ElementsMatch(s[1..], es[1..])
      case Exactly(c) => s != [] && s[0] == c && ElementsMatch(s[1..], es[1..])
  }

  predicate WellFormedPattern(pattern: string, escape: Option<char>) {
    Elements(pattern, escape).Some?
  }

  predicate SqlLike(s: string, pattern: string, escape: Option<char>)
    requires WellFormedPattern(pattern, escape)
  {
    ElementsMatch(s, Elements(pattern, escape).value)
  }

  // ----- escaping -----

  function Replace(s: string, c: char, with: string): string {
    if s == [] then [] else (if s[0] == c then with else [s[0]]) + Replace(s[1..], c, with)
  }

  /** Three replacements, one after the other; the backslash must go first. */
  function EscapeLike(v: string): string {
    Replace(Replace(Replace(v, '\\', "\\\\"), '%', "\\%"), '_', "\\_")
  }

  function EscapedChar(c: char): string {
    if c in {'\\', '%', '_'} then ['\\', c] else [c]
  }

  /** The escape done one character at a time. */
  function EscapeEach(v: string): string {
    if v == [] then [] else EscapedChar(v[0]) + EscapeEach(v[1..])
  }

  lemma {:induction false} ReplaceConcat(a: string, b: string, c: char, with: string)
    ensures Replace(a + b, c, with) == Replace(a, c, with) + Replace(b, c, with)
  {
    if a == [] {
      assert a + b == b;
    } else {
      assert (a + b)[1..] == a[1..] + b;
      ReplaceConcat(a[1..], b, c, with);
    }
  }

  lemma ReplaceTwo(x: char, y: char, c: char, with: string)
    ensures Replace([x], c, with) == if x == c then with else [x]
    ensures Replace([x, y], c, with) == (if x == c then with else [x]) + (if y == c then with else [y])
  {
    assert [x, y][1..] == [y] && [y][1..] == [] && [x][1..] == [];
  }

  /** The three sequential replacements are the one-pass escape. */
  lemma {:induction false} EscapeLikeIsEscapeEach(v: string)
    ensures EscapeLike(v) == EscapeEach(v)
  {
    if v != [] {
      var head, tail := [v[0]], v[1..];
      assert v == head + tail;
      var one := Replace(head, '\\', "\\\\");
      var two := Replace(one, '%', "\\%");
      ReplaceConcat(head, tail, '\\', "\\\\");
      ReplaceConcat(one, Replace(tail, '\\', "\\\\"), '%', "\\%");
      ReplaceConcat(two, Replace(Replace(tail, '\\', "\\\\"), '%', "\\%"), '_', "\\_");
      EscapeLikeIsEscapeEach(tail);
      ReplaceTwo(v[0], v[0], '\\', "\\\\");
      ReplaceTwo(v[0], v[0], '%', "\\%");
      ReplaceTwo(v[0], v[0], '_', "\\_");
      ReplaceTwo('\\', '\\', '%', "\\%");
      ReplaceTwo('\\', '\\', '_', "\\_");
      ReplaceTwo('\\', v[0], '_', "\\_");
    }
  }

  // ----- escaped patterns match exactly the escaped text -----

  function Literally(v: string): seq<Element> {
    if v == [] then [] else [Exactly(v[0])] + Literally(v[1..])
  }

  lemma OneEscaped(c: char, tail: string, es: seq<Element>)
    requires Elements(tail, Some('\\')) == Some(es)
    ensures Elements(EscapedChar(c) + tail, Some('\\')) == Some([Exactly(c)] + es)
  {
    assert (EscapedChar(c) + tail)[|EscapedChar(c)|..] == tail;
  }

  lemma {:induction false} ElementsOfEscaped(v: string, rest: string)
    requires WellFormedPattern(rest, Some('\\'))
    ensures Elements(EscapeEach(v) + rest, Some('\\')) == Some(Literally(v) + Elements(rest, Some('\\')).value)
  {
    hide Elements, EscapedChar;
    if v == [] {
      assert EscapeEach(v) + rest == rest;
      assert Literally(v) + Elements(rest, Some('\\')).value == Elements(rest, Some('\\')).value;
    } else {
      ElementsOfEscaped(v[1..], rest);
      var tail := EscapeEach(v[1..]) + rest;
      var es := Elements(rest, Some('\\')).value;
      OneEscaped(v[0], tail, Literally(v[1..]) + es);
      assert EscapeEach(v) + rest == EscapedChar(v[0]) + tail;
      assert [Exactly(v[0])] + (Literally(v[1..]) + es) == Literally(v) + es;
    }
  }

  lemma ElementsOfPercent(pattern: string)
    ensures Elements(['%'] + pattern, Some('\\')) ==
      (if WellFormedPattern(pattern, Some('\\')) then Some([AnyString] + Elements(pattern, Some('\\')).value) else None)
  {
    assert (['%'] + pattern)[1..] == pattern;
  }

  lemma {:induction false} LiterallyMatches(s: string, v: string, tail: seq<Element>)
    ensures ElementsMatch(s, Literally(v) + tail) <==> v <= s && ElementsMatch(s[|v|..], tail)
  {
    if v == [] {
      assert Literally(v) + tail == tail && s[0..] == s;
    } else {
      assert (Literally(v) + tail)[1..] == Literally(v[1..]) + tail;
      if s != [] {
        LiterallyMatches(s[1..], v[1..], tail);
        PrefixStep(v, s);
      }
    }
  }

  lemma PrefixStep(v: string, s: string)
    requires v != [] && s != []
    ensures v <= s <==> v[0] == s[0] && v[1..] <= s[1..]
    ensures v <= s ==> s[1..][|v| - 1..] == s[|v|..]
  {
    assert v == [v[0]] + v[1..] && s == [s[0]] + s[1..];
  }

  lemma {:induction false} AnyStringMatches(s: string)
    ensures ElementsMatch(s, [AnyString])
  {
    if s != [] {
      AnyStringMatches(s[1..]);
    }
  }

  lemma {:induction false} ContainsMatches(s: string, v: string)
    ensures ElementsMatch(s, [AnyString] + (Literally(v) + [AnyString])) <==> IsSubstring(v, s)
    decreases s
  {
    var es := [AnyString] + (Literally(v) + [AnyString]);
    assert es[1..] == Literally(v) + [AnyString];
    LiterallyMatches(s, v, [AnyString]);
    if v <= s {
      AnyStringMatches(s[|v|..]);
    }
    if s != [] {
      ContainsMatches(s[1..], v);
    }
  }

  lemma {:induction false} EndsWithMatches(s: string, v: string)
    ensures ElementsMatch(s, [AnyString] + Literally(v)) <==> IsSuffix(v, s)
    decreases s
  {
    var es := [AnyString] + Literally(v);
    assert es[1..] == Literally(v) && Literally(v) + [] == Literally(v);
    LiterallyMatches(s, v, []);
    if s != [] {
      EndsWithMatches(s[1..], v);
      if |v| <= |s| - 1 {
        assert s[1..][|s| - 1 - |v|..] == s[|s| - |v|..];
      }
    }
    if |v| == |s| {
      assert s[0..] == s;
    }
  }

  // ----- the pattern the compiler binds -----

  /** What is bound for each pattern filter, and whether ESCAPE follows the placeholder. */
  function BoundPattern(op: PatternOp, v: string): string {
    match op
    case Contains => "%" + EscapeLike(v) + "%"
    case StartsWith => EscapeLike(v) + "%"
    case EndsWith => "%" + EscapeLike(v)
    case Like => v
  }

  function EscapeOf(op: PatternOp): Option<char> {
    if op.Like? then None else Some('\\')
  }

  /** The escaped pattern is well formed and matches exactly the strings that contain, start with
      or end with the value, whatever characters the two hold. */
  lemma EscapingIsExact(op: PatternOp, v: string, s: string)
    requires !op.Like?
    ensures WellFormedPattern(BoundPattern(op, v), EscapeOf(op))
    ensures SqlLike(s, BoundPattern(op, v), EscapeOf(op)) <==> PatternTest(op, s, v)
  {
    EscapeLikeIsEscapeEach(v);
    var e := EscapeEach(v);
    assert Elements([], Some('\\')) == Some([]);
    ElementsOfPercent([]);
    assert ['%'] + [] == "%" && [AnyString] + [] == [AnyString];
    ElementsOfEscaped(v, "%");
    ElementsOfEscaped(v, []);
    assert e + [] == e && Literally(v) + [] == Literally(v);
    match op
    case Contains =>
      ElementsOfPercent(e + "%");
      assert BoundPattern(op, v) == ['%'] + (e + "%");
      ContainsMatches(s, v);
    case StartsWith =>
      LiterallyMatches(s, v, [AnyString]);
      if v <= s {
        AnyStringMatches(s[|v|..]);
      }
    case EndsWith =>
      ElementsOfPercent(e);
      assert BoundPattern(op, v) == ['%'] + e;
      EndsWithMatches(s, v);
  }

  // ----- plain LIKE against the engine's regular expression -----

  lemma {:induction false} NoEscapeWellFormed(pattern: string)
    ensures WellFormedPattern(pattern, None)
  {
    if pattern != [] {
      NoEscapeWellFormed(pattern[1..]);
    }
  }

  lemma {:induction false} RegexIsLike(s: string, pattern: string)
    requires '\n' !in s
    ensures WellFormedPattern(pattern, None)
    ensures RegexLike(s, pattern) <==> SqlLike(s, pattern, None)
    decreases |s| + |pattern|
  {
    NoEscapeWellFormed(pattern);
    if pattern != [] {
      NoEscapeWellFormed(pattern[1..]);
      var es, tail := Elements(pattern, None).value, Elements(pattern[1..], None).value;
      assert es[1..] == tail;
      RegexIsLike(s, pattern[1..]);
      if s != [] {
        RegexIsLike(s[1..], pattern[1..]);
        if pattern[0] == '%' {
          RegexIsLike(s[1..], pattern);
        }
      }
    }
  }

  function Repeat(c: char, n: nat): (r: string)
    ensures |r| == n
  {
    if n == 0 then [] else [c] + Repeat(c, n - 1)
  }

  lemma {:induction false} UnderscoresMatchLength(s: string, n: nat)
    ensures WellFormedPattern(Repeat('_', n), None)
    ensures SqlLike(s, Repeat('_', n), None) <==> |s| == n
    ensures '\n' !in s ==> (RegexLike(s, Repeat('_', n)) <==> |s| == n)
    ensures '\n' !in s && |s| == n ==> RegexLike(s + ['\n'], Repeat('_', n))
  {
    NoEscapeWellFormed(Repeat('_', n));
    if n > 0 {
      NoEscapeWellFormed(Repeat('_', n - 1));
      assert Repeat('_', n)[1..] == Repeat('_', n - 1);
      if s != [] {
        UnderscoresMatchLength(s[1..], n - 1);
        assert (s + ['\n'])[1..] == s[1..] + ['\n'];
      }
    } else if s == [] {
      assert s + ['\n'] == ['\n'];
    }
  }

  lemma {:induction false} RegexStopsAtNewline(s: string, k: nat)
    requires k < |s| && s[k] == '\n' && k + 1 < |s|
    ensures !RegexLike(s, "%")
    decreases |s|
  {
    assert "%"[1..] == [];
    if s[0] != '\n' {
      RegexStopsAtNewline(s[1..], k - 1);
    }
  }

  lemma SqlPercentMatches(s: string)
    ensures WellFormedPattern("%", None) && SqlLike(s, "%", None)
  {
    assert "%"[1..] == [] && Elements("%"[1..], None) == Some([]);
    assert [AnyString] + [] == [AnyString];
    assert Elements("%", None) == Some([AnyString] + []);
    AnyStringMatches(s);
  }

  /** Both LIKEs read the pattern, and give one answer on the string. */
  ghost predicate LikesAgree(s: string, pattern: string) {
    WellFormedPattern(pattern, None) && (RegexLike(s, pattern) <==> SqlLike(s, pattern, None))
  }

  /** The two LIKEs agree on a string for every pattern exactly when it holds no newline. */
  lemma LikesAgreeIffNoNewline(s: string)
    ensures (forall pattern :: LikesAgree(s, pattern)) <==> '\n' !in s
  {
    if '\n' !in s {
      forall pattern ensures LikesAgree(s, pattern) {
        RegexIsLike(s, pattern);
      }
    } else {
      var pattern := LikesDisagree(s);
    }
  }

  lemma LikesDisagree(s: string) returns (pattern: string)
    requires '\n' in s
    ensures !LikesAgree(s, pattern)
  {
    var k :| 0 <= k < |s| && s[k] == '\n';
    if k + 1 == |s| && '\n' in s[..k] {
      var j :| 0 <= j < k && s[..k][j] == '\n';
      k := j;
    }
    if k + 1 < |s| {
      RegexStopsAtNewline(s, k);
      SqlPercentMatches(s);
      pattern := "%";
    } else {
      assert s == s[..k] + ['\n'];
      UnderscoresMatchLength(s[..k], k);
      UnderscoresMatchLength(s, k);
      pattern := Repeat('_', k);
    }
  }

  // ----- what the patterns mean -----

  lemma {:induction false} AnyStringSplits(s: string, es: seq<Element>)
    ensures ElementsMatch(s, [AnyString] + es) <==> exists i :: 0 <= i <= |s| && ElementsMatch(s[i..], es)
    decreases |s|
  {
    assert ([AnyString] + es)[1..] == es;
    assert s[0..] == s;
    if s != [] {
      var rest := s[1..];
      AnyStringSplits(rest, es);
      if i :| 0 <= i <= |rest| && ElementsMatch(rest[i..], es) {
        assert s[i + 1..] == rest[i..];
      }
      if i :| 0 < i <= |s| && ElementsMatch(s[i..], es) {
        assert rest[i - 1..] == s[i..];
      }
    }
  }

  /** `%` stands for any string, `_` for any character, anything else for itself, and the end for the end. */
  lemma LikeMeans(s: string, p: string, c: char)
    requires c != '%' && c != '_'
    ensures WellFormedPattern(p, None) && WellFormedPattern("%" + p, None) && WellFormedPattern("_" + p, None) && WellFormedPattern([c] + p, None)
    ensures SqlLike(s, "%" + p, None) <==> exists i :: 0 <= i <= |s| && SqlLike(s[i..], p, None)
    ensures SqlLike(s, "_" + p, None) <==> s != [] && SqlLike(s[1..], p, None)
    ensures SqlLike(s, [c] + p, None) <==> s != [] && s[0] == c && SqlLike(s[1..], p, None)
    ensures SqlLike(s, [], None) <==> s == []
  {
    PlainPattern(p);
    PlainPattern("%" + p);
    PlainPattern("_" + p);
    PlainPattern([c] + p);
    var es := Elements(p, None).value;
    assert ("%" + p)[1..] == p && ("_" + p)[1..] == p && ([c] + p)[1..] == p;
    assert Elements("%" + p, None).value == [AnyString] + es && Elements("_" + p, None).value == [AnyChar] + es;
    assert Elements([c] + p, None).value == [Exactly(c)] + es;
    assert ([AnyChar] + es)[1..] == es && ([Exactly(c)] + es)[1..] == es;
    AnyStringSplits(s, es);
  }

  lemma {:induction false} PlainPattern(p: string)
    ensures WellFormedPattern(p, None)
  {
    if p != [] {
      PlainPattern(p[1..]);
    }
  }

  predicate NoNewlineIn(s: string) {
    forall i :: 0 <= i < |s| ==> s[i] != '\n'
  }

  lemma {:induction false} DotStarSplits(s: string, p: string)
    ensures RegexLike(s, "%" + p) <==> exists i :: 0 <= i <= |s| && NoNewlineIn(s[..i]) && RegexLike(s[i..], p)
    decreases |s|
  {
    assert ("%" + p)[1..] == p;
    assert s[0..] == s && s[..0] == [];
    if s != [] {
      var rest := s[1..];
      DotStarSplits(rest, p);
      if i :| 0 <= i <= |rest| && s[0] != '\n' && NoNewlineIn(rest[..i]) && RegexLike(rest[i..], p) {
        assert s[i + 1..] == rest[i..] && s[..i + 1] == [s[0]] + rest[..i];
        assert NoNewlineIn(s[..i + 1]);
      }
      if i :| 0 < i <= |s| && NoNewlineIn(s[..i]) && RegexLike(s[i..], p) {
        assert rest[i - 1..] == s[i..] && s[..i] == [s[0]] + rest[..i - 1];
        assert s[..i][0] == s[0];
        var front, inner := s[..i], rest[..i - 1];
        forall k | 0 <= k < i - 1 ensures inner[k] != '\n' {
          assert inner[k] == front[k + 1];
        }
      }
    }
  }

  /** The engine's pattern: `%` is a string without newline, `_` a character other than it, anything else itself,
      and the end may be followed by one newline. */
  lemma RegexMeans(s: string, p: string, c: char)
    requires c != '%' && c != '_'
    ensures RegexLike(s, "%" + p) <==> exists i :: 0 <= i <= |s| && NoNewlineIn(s[..i]) && RegexLike(s[i..], p)
    ensures RegexLike(s, "_" + p) <==> s != [] && s[0] != '\n' && RegexLike(s[1..], p)
    ensures RegexLike(s, [c] + p) <==> s != [] && s[0] == c && RegexLike(s[1..], p)
    ensures RegexLike(s, []) <==> s == [] || s == "\n"
  {
    DotStarSplits(s, p);
    assert ("_" + p)[1..] == p && ([c] + p)[1..] == p;
  }
}
