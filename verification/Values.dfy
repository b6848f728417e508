/**
  Bytes, and scalar field values with the total order in which the reference engine sorts them.
 */
module Values {

  datatype Option<+T> = None | Some(value: T)

  datatype Result<+T, +E> = Ok(value: T) | Err(error: E)

  type Byte = b: nat | b < 256

  type Bytes = seq<Byte>

  /** A scalar column value. Booleans, floats and containers are not modelled. */
  datatype Value = Null | Int(i: int) | Str(s: string)

  lemma AppendTwice<T>(a: seq<T>, b: seq<T>, c: seq<T>)
    ensures a + b + c == a + (b + c)
  {
  }

  /** Lexicographic order by code point. */
  predicate StrLeq(a: string, b: string) {
    a == [] || (b != [] && (a[0] < b[0] || (a[0] == b[0] && StrLeq(a[1..], b[1..]))))
  }

  lemma {:induction false} StrLeqTotal(a: string, b: string)
    ensures StrLeq(a, b) || StrLeq(b, a)
  {
    if a != [] && b != [] && a[0] == b[0] {
      StrLeqTotal(a[1..], b[1..]);
    }
  }

  lemma {:induction false} StrLeqAntisymmetric(a: string, b: string)
    requires StrLeq(a, b) && StrLeq(b, a)
    ensures a == b
  {
    if a != [] && b != [] {
      StrLeqAntisymmetric(a[1..], b[1..]);
      assert a == [a[0]] + a[1..] && b == [b[0]] + b[1..];
    }
  }

  lemma {:induction false} StrLeqTransitive(a: string, b: string, c: string)
    requires StrLeq(a, b) && StrLeq(b, c)
    ensures StrLeq(a, c)
  {
    if a != [] && a[0] == b[0] == c[0] {
      StrLeqTransitive(a[1..], b[1..], c[1..]);
    }
  }

  /** Null first, then numbers, then text: what the tagged sort keys `(0, ...)` and `(1, ...)`
      of the engine compare, wherever that comparison is defined. */
  predicate Leq(a: Value, b: Value) {
    match (a, b)
    case (Null, _) => true
    case (_, Null) => false
    case (Int(x), Int(y)) => x <= y
    case (Int(_), Str(_)) => true
    case (Str(_), Int(_)) => false
    case (Str(x), Str(y)) => StrLeq(x, y)
  }

  lemma LeqTotal(a: Value, b: Value)
    ensures Leq(a, b) || Leq(b, a)
  {
    if a.Str? && b.Str? {
      StrLeqTotal(a.s, b.s);
    }
  }

  lemma LeqAntisymmetric(a: Value, b: Value)
    requires Leq(a, b) && Leq(b, a)
    ensures a == b
  {
    if a.Str? && b.Str? {
      StrLeqAntisymmetric(a.s, b.s);
    }
  }

  lemma LeqTransitive(a: Value, b: Value, c: Value)
    requires Leq(a, b) && Leq(b, c)
    ensures Leq(a, c)
  {
    if a.Str? && b.Str? && c.Str? {
      StrLeqTransitive(a.s, b.s, c.s);
    }
  }

  // ----- what the order is -----

  /** Texts are ordered by their first different character; a prefix comes first. */
  lemma {:induction false} StrLeqIsLexicographic(a: string, b: string)
    ensures StrLeq(a, b) <==>
      a <= b || exists i :: 0 <= i < |a| && i < |b| && a[..i] == b[..i] && a[i] < b[i]
  {
    if a != [] && b != [] && a[0] == b[0] {
      StrLeqIsLexicographic(a[1..], b[1..]);
      assert a == [a[0]] + a[1..] && b == [b[0]] + b[1..];
      assert a <= b <==> a[1..] <= b[1..];
      if i :| 0 <= i < |a| && i < |b| && a[..i] == b[..i] && a[i] < b[i] {
        assert i > 0 && a[1..][..i - 1] == a[..i][1..] == b[..i][1..] == b[1..][..i - 1];
        assert a[1..][i - 1] < b[1..][i - 1];
      }
      if i :| 0 <= i < |a[1..]| && i < |b[1..]| && a[1..][..i] == b[1..][..i] && a[1..][i] < b[1..][i] {
        assert a[..i + 1] == [a[0]] + a[1..][..i] == [b[0]] + b[1..][..i] == b[..i + 1];
        assert a[i + 1] < b[i + 1];
      }
    } else if a != [] && b != [] && a[0] < b[0] {
      assert a[..0] == b[..0];
    } else if a != [] && b != [] {
      assert forall i :: 0 < i < |a| && i < |b| ==> a[..i][0] != b[..i][0];
    }
  }

  /** Null comes first, numbers before texts, numbers by size and texts as above. */
  lemma LeqIs(x: int, y: int, s: string, t: string, v: Value)
    ensures Leq(Null, v) && (Leq(v, Null) <==> v.Null?)
    ensures Leq(Int(x), Str(s)) && !Leq(Str(s), Int(x))
    ensures Leq(Int(x), Int(y)) <==> x <= y
    ensures Leq(Str(s), Str(t)) <==> s <= t || exists i :: 0 <= i < |s| && i < |t| && s[..i] == t[..i] && s[i] < t[i]
  {
    StrLeqIsLexicographic(s, t);
  }
}
