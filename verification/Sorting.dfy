/**
  The stable sort of the reference engine, specified independently of any algorithm: a sorted
  rearrangement that keeps equal elements in order, of which there is only one. Sorting once per key,
  from the last key to the first, is one sort by all of them.
 */
module Sorting {

  ghost predicate TotalPreorder<T(!new)>(leq: (T, T) -> bool) {
    && (forall a, b :: leq(a, b) || leq(b, a))
    && (forall a, b, c :: leq(a, b) && leq(b, c) ==> leq(a, c))
  }

  ghost predicate TotalOrder<T(!new)>(leq: (T, T) -> bool) {
    && TotalPreorder(leq)
    && (forall a, b :: leq(a, b) && leq(b, a) ==> a == b)
  }

  /** Inserts `x` before the first element it does not exceed, hence before its equals. */
  function Insert<T>(x: T, ys: seq<T>, leq: (T, T) -> bool): seq<T> {
    if ys == [] || leq(x, ys[0]) then [x] + ys else [ys[0]] + Insert(x, ys[1..], leq)
  }

  function Sort<T>(xs: seq<T>, leq: (T, T) -> bool): seq<T> {
    if xs == [] then [] else Insert(xs[0], Sort(xs[1..], leq), leq)
  }

  // ----- the specification of a stable sort -----

  ghost predicate SortedBy<T>(xs: seq<T>, leq: (T, T) -> bool) {
    forall i, j :: 0 <= i < j < |xs| ==> leq(xs[i], xs[j])
  }

  /** The elements of `xs` that tie with `e`, in the order they have in `xs`. */
  ghost function Ties<T>(xs: seq<T>, e: T, leq: (T, T) -> bool): seq<T> {
    if xs == [] then []
    else (if leq(xs[0], e) && leq(e, xs[0]) then [xs[0]] else []) + Ties(xs[1..], e, leq)
  }

  /** `ys` is a stable rearrangement of `xs`: every class of ties survives, in order. */
  ghost predicate StableRearrangement<T(!new)>(xs: seq<T>, ys: seq<T>, leq: (T, T) -> bool) {
    forall e :: Ties(xs, e, leq) == Ties(ys, e, leq)
  }

  lemma {:induction false} InsertElements<T>(x: T, ys: seq<T>, leq: (T, T) -> bool)
    ensures |Insert(x, ys, leq)| == |ys| + 1
    ensures multiset(Insert(x, ys, leq)) == multiset{x} + multiset(ys)
  {
    if !(ys == [] || leq(x, ys[0])) {
      InsertElements(x, ys[1..], leq);
      assert ys == [ys[0]] + ys[1..];
    }
  }

  lemma {:induction false} InsertSorted<T(!new)>(x: T, ys: seq<T>, leq: (T, T) -> bool)
    requires TotalPreorder(leq) && SortedBy(ys, leq)
    ensures SortedBy(Insert(x, ys, leq), leq)
  {
    if ys == [] {
    } else if leq(x, ys[0]) {
    } else {
      InsertSorted(x, ys[1..], leq);
      var tail := Insert(x, ys[1..], leq);
      InsertElements(x, ys[1..], leq);
      forall j | 0 <= j < |tail| ensures leq(ys[0], tail[j]) {
        assert tail[j] in multiset(tail);
        assert tail[j] == x || tail[j] in ys[1..];
      }
    }
  }

  lemma {:induction false} InsertTies<T(!new)>(x: T, ys: seq<T>, e: T, leq: (T, T) -> bool)
    requires TotalPreorder(leq)
    ensures Ties(Insert(x, ys, leq), e, leq) == Ties([x] + ys, e, leq)
  {
    assert ([x] + ys)[1..] == ys;
    if !(ys == [] || leq(x, ys[0])) {
      InsertTies(x, ys[1..], e, leq);
      assert ([ys[0]] + Insert(x, ys[1..], leq))[1..] == Insert(x, ys[1..], leq);
      assert ([x] + ys[1..])[1..] == ys[1..];
    }
  }

  /** `Sort` is a stable sort. */
  lemma {:induction false} SortCorrect<T(!new)>(xs: seq<T>, leq: (T, T) -> bool)
    requires TotalPreorder(leq)
    ensures SortedBy(Sort(xs, leq), leq)
    ensures StableRearrangement(xs, Sort(xs, leq), leq)
    ensures multiset(Sort(xs, leq)) == multiset(xs)
  {
    if xs != [] {
      SortCorrect(xs[1..], leq);
      InsertSorted(xs[0], Sort(xs[1..], leq), leq);
      InsertElements(xs[0], Sort(xs[1..], leq), leq);
      assert xs == [xs[0]] + xs[1..];
      forall e ensures Ties(xs, e, leq) == Ties(Sort(xs, leq), e, leq) {
        InsertTies(xs[0], Sort(xs[1..], leq), e, leq);
        assert ([xs[0]] + Sort(xs[1..], leq))[1..] == Sort(xs[1..], leq);
        assert Ties(xs[1..], e, leq) == Ties(Sort(xs[1..], leq), e, leq);
      }
    }
  }

  lemma {:induction false} TiesFrom<T>(xs: seq<T>, e: T, leq: (T, T) -> bool)
    ensures forall y :: y in Ties(xs, e, leq) ==> y in xs && leq(y, e) && leq(e, y)
    ensures e in xs && leq(e, e) ==> e in Ties(xs, e, leq)
  {
    if xs != [] {
      TiesFrom(xs[1..], e, leq);
    }
  }

  lemma SameMembers<T(!new)>(ys: seq<T>, zs: seq<T>, leq: (T, T) -> bool)
    requires TotalPreorder(leq) && StableRearrangement(ys, zs, leq)
    ensures forall y :: y in ys ==> y in zs
  {
    forall y | y in ys ensures y in zs {
      TiesFrom(ys, y, leq);
      TiesFrom(zs, y, leq);
      assert Ties(ys, y, leq) == Ties(zs, y, leq);
    }
  }

  /** The specification has one solution: any sorted stable rearrangement is what `Sort` gives. */
  lemma {:induction false} StableSortUnique<T(!new)>(ys: seq<T>, zs: seq<T>, leq: (T, T) -> bool)
    requires TotalPreorder(leq)
    requires SortedBy(ys, leq) && SortedBy(zs, leq)
    requires StableRearrangement(ys, zs, leq)
    ensures ys == zs
  {
    SameMembers(ys, zs, leq);
    SameMembers(zs, ys, leq);
    assert zs == [] || zs[0] in ys;
    if ys != [] {
      assert ys[0] in zs;
      var y, z := ys[0], zs[0];
      assert z in ys;
      assert leq(y, z) && leq(z, y);
      assert Ties(ys, y, leq)[0] == y && Ties(zs, y, leq)[0] == z;
      assert Ties(ys, y, leq) == Ties(zs, y, leq);
      forall e ensures Ties(ys[1..], e, leq) == Ties(zs[1..], e, leq) {
        assert Ties(ys, e, leq) == Ties(zs, e, leq);
        var yTies, zTies := Ties(ys[1..], e, leq), Ties(zs[1..], e, leq);
        if leq(y, e) && leq(e, y) {
          assert leq(z, e) && leq(e, z);
          assert Ties(ys, e, leq) == [y] + yTies;
          assert Ties(zs, e, leq) == [z] + zTies;
          assert ([y] + yTies)[1..] == yTies;
          assert ([z] + zTies)[1..] == zTies;
        } else {
          assert !(leq(z, e) && leq(e, z));
          assert Ties(ys, e, leq) == yTies;
          assert Ties(zs, e, leq) == zTies;
        }
      }
      StableSortUnique(ys[1..], zs[1..], leq);
      assert ys == [y] + ys[1..] && zs == [z] + zs[1..];
    }
  }

  lemma HeadsAgree<T(!new)>(ys: seq<T>, zs: seq<T>, leq: (T, T) -> bool)
    requires TotalOrder(leq)
    requires SortedBy(ys, leq) && SortedBy(zs, leq)
    requires ys != [] && zs != [] && ys[0] in zs && zs[0] in ys
    ensures ys[0] == zs[0]
  {
    var i :| 0 <= i < |zs| && zs[i] == ys[0];
    var j :| 0 <= j < |ys| && ys[j] == zs[0];
    assert leq(ys[0], zs[0]) && leq(zs[0], ys[0]);
  }

  lemma MultisetTail<T>(xs: seq<T>)
    requires xs != []
    ensures multiset(xs[1..]) == multiset(xs) - multiset{xs[0]}
    ensures xs[0] in multiset(xs)
  {
    assert xs == [xs[0]] + xs[1..];
  }

  /** Under a total order the sorted sequence depends on the elements alone. */
  lemma {:induction false} SortedUnique<T(!new)>(ys: seq<T>, zs: seq<T>, leq: (T, T) -> bool)
    requires TotalOrder(leq)
    requires SortedBy(ys, leq) && SortedBy(zs, leq)
    requires multiset(ys) == multiset(zs)
    ensures ys == zs
  {
    assert |multiset(ys)| == |ys| && |multiset(zs)| == |zs|;
    if ys != [] {
      MultisetTail(ys);
      MultisetTail(zs);
      HeadsAgree(ys, zs, leq);
      SortedUnique(ys[1..], zs[1..], leq);
    }
  }

  // ----- one pass per key -----

  /** Compares by `major` and breaks ties by `minor`. */
  function Lexicographic<T>(major: (T, T) -> bool, minor: (T, T) -> bool): (T, T) -> bool {
    (a, b) => major(a, b) && (major(b, a) ==> minor(a, b))
  }

  lemma LexicographicPreorder<T(!new)>(major: (T, T) -> bool, minor: (T, T) -> bool)
    requires TotalPreorder(major) && TotalPreorder(minor)
    ensures TotalPreorder(Lexicographic(major, minor))
  {
    var lex := Lexicographic(major, minor);
    forall a, b, c | lex(a, b) && lex(b, c) ensures lex(a, c) {
      if major(c, a) {
        assert major(b, a) && major(c, b);
      }
    }
  }

  lemma {:induction false} InsertsCommute<T(!new)>(x: T, y: T, zs: seq<T>, leq: (T, T) -> bool)
    requires TotalPreorder(leq)
    requires !(leq(x, y) && leq(y, x))
    ensures Insert(x, Insert(y, zs, leq), leq) == Insert(y, Insert(x, zs, leq), leq)
  {
    if zs != [] {
      InsertsCommute(x, y, zs[1..], leq);
      var ix, iy := Insert(x, zs[1..], leq), Insert(y, zs[1..], leq);
      assert ([zs[0]] + ix)[1..] == ix && ([zs[0]] + iy)[1..] == iy;
    }
    assert ([x] + zs)[1..] == zs && ([y] + zs)[1..] == zs;
  }

  /** An element that is `minor`-before all of `zs` is placed alike by `major` and by the
      lexicographic order. */
  lemma {:induction false} InsertAgrees<T>(x: T, zs: seq<T>, major: (T, T) -> bool, minor: (T, T) -> bool)
    requires forall z :: z in zs ==> minor(x, z)
    ensures Insert(x, zs, major) == Insert(x, zs, Lexicographic(major, minor))
  {
    if zs != [] {
      InsertAgrees(x, zs[1..], major, minor);
    }
  }

  lemma {:induction false} SortOfInsert<T(!new)>(x: T, ys: seq<T>, major: (T, T) -> bool, minor: (T, T) -> bool)
    requires TotalPreorder(major) && TotalPreorder(minor)
    requires SortedBy(ys, minor)
    ensures Sort(Insert(x, ys, minor), major) == Insert(x, Sort(ys, major), Lexicographic(major, minor))
  {
    var lex := Lexicographic(major, minor);
    SortCorrect(ys, major);
    if ys == [] || minor(x, ys[0]) {
      assert ([x] + ys)[1..] == ys;
      forall z | z in Sort(ys, major) ensures minor(x, z) {
        assert z in multiset(Sort(ys, major));
        assert z in ys;
      }
      InsertAgrees(x, Sort(ys, major), major, minor);
    } else {
      SortOfInsert(x, ys[1..], major, minor);
      assert ([ys[0]] + Insert(x, ys[1..], minor))[1..] == Insert(x, ys[1..], minor);
      PlaceHead(x, ys[0], ys[1..], major, minor);
    }
  }

  /** The element that precedes all others for `minor`, inserted last, lands where the
      lexicographic order puts it. */
  lemma PlaceHead<T(!new)>(x: T, y: T, rest: seq<T>, major: (T, T) -> bool, minor: (T, T) -> bool)
    requires TotalPreorder(major) && TotalPreorder(minor)
    requires !minor(x, y) && minor(y, x) && forall z :: z in rest ==> minor(y, z)
    ensures
      var lex := Lexicographic(major, minor);
      Insert(y, Insert(x, Sort(rest, major), lex), major) == Insert(x, Insert(y, Sort(rest, major), major), lex)
  {
    var lex := Lexicographic(major, minor);
    var sorted := Sort(rest, major);
    SortCorrect(rest, major);
    forall z | z in sorted ensures minor(y, z) {
      assert z in multiset(sorted);
      assert z in rest;
    }
    InsertElements(x, sorted, lex);
    forall z | z in Insert(x, sorted, lex) ensures minor(y, z) {
      assert z in multiset(Insert(x, sorted, lex));
      assert z == x || z in sorted;
    }
    InsertAgrees(y, Insert(x, sorted, lex), major, minor);
    InsertAgrees(y, sorted, major, minor);
    LexicographicPreorder(major, minor);
    InsertsCommute(x, y, sorted, lex);
  }

  /** Sorting by `minor` and then, stably, by `major` is one sort by the lexicographic order. */
  lemma {:induction false} SortTwice<T(!new)>(xs: seq<T>, major: (T, T) -> bool, minor: (T, T) -> bool)
    requires TotalPreorder(major) && TotalPreorder(minor)
    ensures Sort(Sort(xs, minor), major) == Sort(xs, Lexicographic(major, minor))
  {
    if xs != [] {
      SortTwice(xs[1..], major, minor);
      SortCorrect(xs[1..], minor);
      SortOfInsert(xs[0], Sort(xs[1..], minor), major, minor);
    }
  }
}
