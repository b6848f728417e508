/**
  Multi-key ordering of select results: the engine runs one stable sort per ORDER BY term, from
  the last term to the first, and the outcome is that of a single ORDER BY list.
 */
module Ordering {
  import opened Values
  import opened Predicates
  import opened Sorting

  datatype SortTerm = SortTerm(field: string, descending: bool)

  /** `reverse=True` reverses the comparison, not the order of ties. */
  function TermLeq(term: SortTerm): (Row, Row) -> bool {
    (a: Row, b: Row) =>
      if term.descending then Leq(FieldOf(b, term.field), FieldOf(a, term.field))
      else Leq(FieldOf(a, term.field), FieldOf(b, term.field))
  }

  function OrderLeq(terms: seq<SortTerm>): (Row, Row) -> bool {
    if terms == [] then (a: Row, b: Row) => true
    else Lexicographic(TermLeq(terms[0]), OrderLeq(terms[1..]))
  }

  lemma TermPreorder(term: SortTerm)
    ensures TotalPreorder(TermLeq(term))
  {
    var leq := TermLeq(term);
    forall a: Row, b: Row ensures leq(a, b) || leq(b, a) {
      LeqTotal(FieldOf(a, term.field), FieldOf(b, term.field));
    }
    forall a: Row, b: Row, c: Row | leq(a, b) && leq(b, c) ensures leq(a, c) {
      if term.descending {
        LeqTransitive(FieldOf(c, term.field), FieldOf(b, term.field), FieldOf(a, term.field));
      } else {
        LeqTransitive(FieldOf(a, term.field), FieldOf(b, term.field), FieldOf(c, term.field));
      }
    }
  }

  lemma {:induction false} OrderPreorder(terms: seq<SortTerm>)
    ensures TotalPreorder(OrderLeq(terms))
  {
    if terms != [] {
      TermPreorder(terms[0]);
      OrderPreorder(terms[1..]);
      LexicographicPreorder(TermLeq(terms[0]), OrderLeq(terms[1..]));
    }
  }

  lemma {:induction false} SortByNothing(rows: seq<Row>)
    ensures Sort(rows, OrderLeq([])) == rows
  {
    if rows != [] {
      SortByNothing(rows[1..]);
    }
  }

  /** One stable sort per term, last term first. */
  method ApplyOrder(sort: seq<SortTerm>, scored: seq<Row>) returns (ordered: seq<Row>)
    ensures ordered == Sort(scored, OrderLeq(sort))
    ensures SortedBy(ordered, OrderLeq(sort))
    ensures StableRearrangement(scored, ordered, OrderLeq(sort))
    ensures multiset(ordered) == multiset(scored)
  {
    ordered := scored;
    SortByNothing(scored);
    var i := |sort|;
    while i > 0
      invariant 0 <= i <= |sort|
      invariant ordered == Sort(scored, OrderLeq(sort[i..]))
    {
      i := i - 1;
      assert sort[i..][0] == sort[i] && sort[i..][1..] == sort[i + 1..];
      TermPreorder(sort[i]);
      OrderPreorder(sort[i + 1..]);
      SortTwice(scored, TermLeq(sort[i]), OrderLeq(sort[i + 1..]));
      ordered := Sort(ordered, TermLeq(sort[i]));
    }
    assert sort[0..] == sort;
    OrderPreorder(sort);
    SortCorrect(scored, OrderLeq(sort));
  }

  // ----- what an ORDER BY list means -----

  ghost predicate AgreeOn(terms: seq<SortTerm>, a: Row, b: Row) {
    forall t :: t in terms ==> FieldOf(a, t.field) == FieldOf(b, t.field)
  }

  /** On the first term where the rows differ, `a` is on the right side of `b`: below it for an
      ascending term, above it for a descending one, null counting as lowest. */
  ghost predicate FirstDifferenceFavours(terms: seq<SortTerm>, k: nat, a: Row, b: Row)
    requires k < |terms|
  {
    var x, y := FieldOf(a, terms[k].field), FieldOf(b, terms[k].field);
    && AgreeOn(terms[..k], a, b)
    && x != y
    && (if terms[k].descending then Leq(y, x) else Leq(x, y))
  }

  ghost predicate OrderByPlaces(terms: seq<SortTerm>, a: Row, b: Row) {
    || AgreeOn(terms, a, b)
    || exists k :: 0 <= k < |terms| && FirstDifferenceFavours(terms, k, a, b)
  }

  lemma {:induction false} OrderLeqIsOrderBy(terms: seq<SortTerm>, a: Row, b: Row)
    ensures OrderLeq(terms)(a, b) <==> OrderByPlaces(terms, a, b)
  {
    hide Leq, FieldOf;
    if terms != [] {
      var x, y := FieldOf(a, terms[0].field), FieldOf(b, terms[0].field);
      LeqTotal(x, y);
      LeqTotal(x, x);
      var rest := terms[1..];
      OrderLeqIsOrderBy(rest, a, b);
      assert terms == [terms[0]] + rest;
      if x == y {
        forall k | 0 <= k < |rest|
          ensures FirstDifferenceFavours(rest, k, a, b) == FirstDifferenceFavours(terms, k + 1, a, b)
        {
          assert terms[..k + 1] == [terms[0]] + rest[..k];
        }
        if k :| 0 <= k < |terms| && FirstDifferenceFavours(terms, k, a, b) {
          assert k > 0;
          assert FirstDifferenceFavours(rest, k - 1, a, b);
        }
        if k :| 0 <= k < |rest| && FirstDifferenceFavours(rest, k, a, b) {
          assert FirstDifferenceFavours(terms, k + 1, a, b);
        }
      } else {
        if Leq(x, y) && Leq(y, x) {
          LeqAntisymmetric(x, y);
        }
        assert FirstDifferenceFavours(terms, 0, a, b) == OrderLeq(terms)(a, b);
        forall k | 0 < k < |terms| ensures !FirstDifferenceFavours(terms, k, a, b) {
          assert terms[0] in terms[..k];
        }
      }
    }
  }
}
