/**
  Grouping and facets: what buckets hold, their order and metrics, and what is conserved.
 */
module Grouping {
  import opened Values
  import opened Predicates
  import opened Sorting
  import opened Tables

  datatype MetricSpec = Count | Min(field: string) | Max(field: string) | Avg(field: string)

  /** `None` over no numbers. */
  datatype Metric = Metric(spec: MetricSpec, value: Option<real>)

  datatype Group = Group(key: Value, count: nat, metrics: seq<Metric>)

  datatype Facet = Facet(value: Value, count: nat)

  const DEFAULT_GROUP_LIMIT: nat := 50
  const DEFAULT_FACET_LIMIT: nat := 10

  // ----- the rows of a group -----

  function Members(rows: seq<Row>, field: string, key: Value): seq<Row> {
    if rows == [] then []
    else
      var n := |rows| - 1;
      Members(rows[..n], field, key) + if FieldOf(rows[n], field) == key then [rows[n]] else []
  }

  function CountOf(rows: seq<Row>, field: string, key: Value): nat {
    |Members(rows, field, key)|
  }

  /** The rows that belong to some group: those whose field is not null. */
  function Groupable(rows: seq<Row>, field: string): nat {
    if rows == [] then 0
    else
      var n := |rows| - 1;
      Groupable(rows[..n], field) + if FieldOf(rows[n], field).Null? then 0 else 1
  }

  /** Larger groups first, smaller keys first among equals. */
  function ByCount(count: Value -> nat): (Value, Value) -> bool {
    (a: Value, b: Value) => count(a) > count(b) || (count(a) == count(b) && Leq(a, b))
  }

  function GroupOrder(rows: seq<Row>, field: string): (Value, Value) -> bool {
    ByCount(k => CountOf(rows, field, k))
  }

  ghost predicate Distinct(keys: seq<Value>) {
    forall i, j :: 0 <= i < j < |keys| ==> keys[i] != keys[j]
  }

  /** The keys of all groups, each once, in the order of the groups. */
  ghost predicate GroupKeys(rows: seq<Row>, field: string, keys: seq<Value>) {
    && SortedBy(keys, GroupOrder(rows, field)) && Distinct(keys)
    && forall k :: k in keys <==> !k.Null? && CountOf(rows, field, k) > 0
  }

  lemma {:induction false} MembersAre(rows: seq<Row>, field: string, key: Value)
    ensures forall r :: multiset(Members(rows, field, key))[r] == if FieldOf(r, field) == key then multiset(rows)[r] else 0
  {
    if rows != [] {
      var n := |rows| - 1;
      MembersAre(rows[..n], field, key);
      assert rows == rows[..n] + [rows[n]];
      assert multiset(rows) == multiset(rows[..n]) + multiset{rows[n]};
    }
  }

  lemma OrderIsTotal(count: Value -> nat)
    ensures TotalOrder(ByCount(count))
  {
    var leq := ByCount(count);
    forall a, b ensures leq(a, b) || leq(b, a) {
      LeqTotal(a, b);
    }
    forall a, b, c | leq(a, b) && leq(b, c) ensures leq(a, c) {
      if count(a) == count(b) == count(c) {
        LeqTransitive(a, b, c);
      }
    }
    forall a, b | leq(a, b) && leq(b, a) ensures a == b {
      LeqAntisymmetric(a, b);
    }
  }

  lemma {:induction false} DistinctOnce(keys: seq<Value>)
    requires Distinct(keys)
    ensures forall k :: multiset(keys)[k] == if k in keys then 1 else 0
  {
    if keys != [] {
      DistinctOnce(keys[1..]);
      assert keys == [keys[0]] + keys[1..];
      assert keys[0] !in keys[1..];
    }
  }

  /** The list of group keys is determined by the rows, and by them as a multiset: the order in which
      rows are stored does not matter. */
  lemma GroupKeysAreDetermined(rows: seq<Row>, others: seq<Row>, field: string, keys: seq<Value>, otherKeys: seq<Value>)
    requires multiset(rows) == multiset(others)
    requires GroupKeys(rows, field, keys) && GroupKeys(others, field, otherKeys)
    ensures keys == otherKeys
  {
    forall k ensures CountOf(rows, field, k) == CountOf(others, field, k) {
      SameMembersOf(rows, others, field, k);
    }
    SameOrder(rows, others, field, otherKeys);
    DistinctOnce(keys);
    DistinctOnce(otherKeys);
    assert multiset(keys) == multiset(otherKeys);
    OrderIsTotal(k => CountOf(rows, field, k));
    SortedUnique(keys, otherKeys, GroupOrder(rows, field));
  }

  lemma SameMultiset<T(!new)>(a: seq<T>, b: seq<T>)
    requires forall x :: multiset(a)[x] == multiset(b)[x]
    ensures multiset(a) == multiset(b) && |a| == |b|
  {
    assert |multiset(a)| == |a| && |multiset(b)| == |b|;
  }

  lemma SameMembersOf(rows: seq<Row>, others: seq<Row>, field: string, key: Value)
    requires multiset(rows) == multiset(others)
    ensures multiset(Members(rows, field, key)) == multiset(Members(others, field, key))
    ensures CountOf(rows, field, key) == CountOf(others, field, key)
  {
    MembersAre(rows, field, key);
    MembersAre(others, field, key);
    SameMultiset(Members(rows, field, key), Members(others, field, key));
  }

  lemma SameOrder(rows: seq<Row>, others: seq<Row>, field: string, keys: seq<Value>)
    requires forall k :: CountOf(rows, field, k) == CountOf(others, field, k)
    requires SortedBy(keys, GroupOrder(others, field))
    ensures SortedBy(keys, GroupOrder(rows, field))
  {
  }

  // ----- conservation -----

  function CountSum(rows: seq<Row>, field: string, keys: seq<Value>): nat {
    if keys == [] then 0 else CountOf(rows, field, keys[0]) + CountSum(rows, field, keys[1..])
  }

  /** One more row adds one to the sum exactly when its key is among the keys. */
  lemma {:induction false} CountSumStep(rows: seq<Row>, field: string, keys: seq<Value>)
    requires rows != [] && Distinct(keys)
    ensures CountSum(rows, field, keys) == CountSum(rows[..|rows| - 1], field, keys) +
      if FieldOf(rows[|rows| - 1], field) in keys then 1 else 0
  {
    if keys != [] {
      CountSumStep(rows, field, keys[1..]);
      assert keys == [keys[0]] + keys[1..];
      assert keys[0] !in keys[1..];
    }
  }

  lemma {:induction false} NoRowsNoCounts(field: string, keys: seq<Value>)
    ensures CountSum([], field, keys) == 0
  {
    if keys != [] {
      NoRowsNoCounts(field, keys[1..]);
    }
  }

  lemma {:induction false} CountsAddUp(rows: seq<Row>, field: string, keys: seq<Value>)
    requires Distinct(keys) && forall k :: k in keys ==> !k.Null?
    requires forall i :: 0 <= i < |rows| && !FieldOf(rows[i], field).Null? ==> FieldOf(rows[i], field) in keys
    ensures CountSum(rows, field, keys) == Groupable(rows, field)
    decreases |rows|
  {
    if rows == [] {
      NoRowsNoCounts(field, keys);
    } else {
      CountSumStep(rows, field, keys);
      CountsAddUp(rows[..|rows| - 1], field, keys);
    }
  }

  lemma {:induction false} CountedRows(rows: seq<Row>, field: string, i: nat)
    requires i < |rows|
    ensures CountOf(rows, field, FieldOf(rows[i], field)) > 0
    decreases |rows|
  {
    if i < |rows| - 1 {
      CountedRows(rows[..|rows| - 1], field, i);
    }
  }

  /** Over all groups the counts add up to the rows that have a value to group by. */
  lemma GroupsConserveRows(rows: seq<Row>, field: string, keys: seq<Value>)
    requires GroupKeys(rows, field, keys)
    ensures CountSum(rows, field, keys) == Groupable(rows, field)
  {
    forall i | 0 <= i < |rows| && !FieldOf(rows[i], field).Null? ensures FieldOf(rows[i], field) in keys {
      CountedRows(rows, field, i);
    }
    CountsAddUp(rows, field, keys);
  }

  // ----- metrics -----

  /** The numbers of a column, in row order. */
  function Numbers(rows: seq<Row>, field: string): seq<int> {
    if rows == [] then []
    else
      var n := |rows| - 1;
      Numbers(rows[..n], field) + if FieldOf(rows[n], field).Int? then [FieldOf(rows[n], field).i] else []
  }

  function Least(ns: seq<int>): (m: int)
    requires ns != []
    ensures m in ns && forall n :: n in ns ==> m <= n
  {
    if |ns| == 1 then ns[0]
    else
      var m := Least(ns[1..]);
      assert ns == [ns[0]] + ns[1..];
      if ns[0] <= m then ns[0] else m
  }

  function Greatest(ns: seq<int>): (m: int)
    requires ns != []
    ensures m in ns && forall n :: n in ns ==> n <= m
  {
    if |ns| == 1 then ns[0]
    else
      var m := Greatest(ns[1..]);
      assert ns == [ns[0]] + ns[1..];
      if ns[0] >= m then ns[0] else m
  }

  function Sum(ns: seq<int>): int {
    if ns == [] then 0 else ns[0] + Sum(ns[1..])
  }

  function MetricOf(spec: MetricSpec, rows: seq<Row>): Metric {
    if spec.Count? then Metric(spec, Some(|rows| as real))
    else
      var ns := Numbers(rows, spec.field);
      if ns == [] then Metric(spec, None)
      else
        Metric(spec, Some(match spec
                          case Min(_) => Least(ns) as real
                          case Max(_) => Greatest(ns) as real
                          case Avg(_) => Sum(ns) as real / |ns| as real))
  }

  function MetricsOf(specs: seq<MetricSpec>, rows: seq<Row>): (r: seq<Metric>)
    ensures |r| == |specs| && forall i :: 0 <= i < |r| ==> r[i] == MetricOf(specs[i], rows)
  {
    seq(|specs|, i requires 0 <= i < |specs| => MetricOf(specs[i], rows))
  }

  lemma {:induction false} NumbersCounted(rows: seq<Row>, field: string, n: int)
    ensures multiset(Numbers(rows, field))[n] == CountOf(rows, field, Int(n))
  {
    if rows != [] {
      NumbersCounted(rows[..|rows| - 1], field, n);
    }
  }

  lemma {:induction false} SumWithout(ns: seq<int>, j: nat)
    requires j < |ns|
    ensures Sum(ns) == ns[j] + Sum(ns[..j] + ns[j + 1..])
  {
    if j == 0 {
      assert ns[..0] + ns[1..] == ns[1..];
    } else {
      SumWithout(ns[1..], j - 1);
      assert (ns[..j] + ns[j + 1..])[1..] == ns[1..][..j - 1] + ns[1..][j..];
    }
  }

  lemma MultisetWithout(ms: seq<int>, j: nat)
    requires j < |ms|
    ensures multiset(ms[..j] + ms[j + 1..]) == multiset(ms) - multiset{ms[j]}
  {
    assert ms == ms[..j] + ([ms[j]] + ms[j + 1..]);
  }

  lemma {:induction false} SumIgnoresOrder(ns: seq<int>, ms: seq<int>)
    requires multiset(ns) == multiset(ms)
    ensures Sum(ns) == Sum(ms)
    decreases |ns|
  {
    if ns == [] {
      assert |multiset(ms)| == |ms| && |multiset(ns)| == 0;
    } else {
      assert ns[0] in multiset(ms);
      var j :| 0 <= j < |ms| && ms[j] == ns[0];
      var rest := ms[..j] + ms[j + 1..];
      MultisetTail(ns);
      MultisetWithout(ms, j);
      SumIgnoresOrder(ns[1..], rest);
      SumWithout(ms, j);
    }
  }

  /** Metrics depend on the rows as a multiset. */
  lemma MetricsIgnoreOrder(spec: MetricSpec, rows: seq<Row>, others: seq<Row>)
    requires multiset(rows) == multiset(others)
    ensures MetricOf(spec, rows) == MetricOf(spec, others)
  {
    if spec.Count? {
      assert |multiset(rows)| == |rows| && |multiset(others)| == |others|;
    } else {
      var ns, ms := Numbers(rows, spec.field), Numbers(others, spec.field);
      forall n ensures multiset(ns)[n] == multiset(ms)[n] {
        NumbersCounted(rows, spec.field, n);
        NumbersCounted(others, spec.field, n);
        SameMembersOf(rows, others, spec.field, Int(n));
      }
      SameMultiset(ns, ms);
      SumIgnoresOrder(ns, ms);
      LeastIgnoresOrder(ns, ms);
    }
  }

  lemma InBoth(ns: seq<int>, ms: seq<int>, n: int)
    requires multiset(ns) == multiset(ms) && n in ns
    ensures n in ms
  {
    assert n in multiset(ns);
  }

  lemma LeastIgnoresOrder(ns: seq<int>, ms: seq<int>)
    requires multiset(ns) == multiset(ms) && |ns| == |ms|
    ensures ns != [] ==> Least(ns) == Least(ms) && Greatest(ns) == Greatest(ms)
  {
    if ns != [] {
      InBoth(ns, ms, Least(ns));
      InBoth(ms, ns, Least(ms));
      InBoth(ns, ms, Greatest(ns));
      InBoth(ms, ns, Greatest(ms));
    }
  }

  // ----- what the metrics are -----

  /** The sum of the integers that the rows hold in the field, and how many hold one. */
  function Total(rows: seq<Row>, field: string): int {
    if rows == [] then 0
    else
      var value := FieldOf(rows[0], field);
      (if value.Int? then value.i else 0) + Total(rows[1..], field)
  }

  function Holders(rows: seq<Row>, field: string): nat {
    if rows == [] then 0 else (if FieldOf(rows[0], field).Int? then 1 else 0) + Holders(rows[1..], field)
  }

  ghost predicate HeldBy(rows: seq<Row>, field: string, n: int) {
    exists r :: r in rows && FieldOf(r, field) == Int(n)
  }

  /** A metric over the rows of a group: their number; or nothing if no row holds an integer in the field, and
      else the least or the greatest of these integers, or their mean. */
  ghost predicate MetricHolds(spec: MetricSpec, rows: seq<Row>, metric: Metric) {
    && metric.spec == spec
    && match spec
       case Count => metric.value == Some(|rows| as real)
       case Min(field) =>
         && (metric.value.None? <==> forall n :: !HeldBy(rows, field, n))
         && (metric.value.Some? ==>
              && (exists n :: HeldBy(rows, field, n) && metric.value.value == n as real)
              && forall n :: HeldBy(rows, field, n) ==> metric.value.value <= n as real)
       case Max(field) =>
         && (metric.value.None? <==> forall n :: !HeldBy(rows, field, n))
         && (metric.value.Some? ==>
              && (exists n :: HeldBy(rows, field, n) && metric.value.value == n as real)
              && forall n :: HeldBy(rows, field, n) ==> n as real <= metric.value.value)
       case Avg(field) =>
         && (metric.value.None? <==> forall n :: !HeldBy(rows, field, n))
         && (metric.value.Some? ==> metric.value.value * Holders(rows, field) as real == Total(rows, field) as real)
  }

  lemma {:induction false} TotalMore(rows: seq<Row>, row: Row, field: string)
    ensures Total(rows + [row], field) == Total(rows, field) + if FieldOf(row, field).Int? then FieldOf(row, field).i else 0
    ensures Holders(rows + [row], field) == Holders(rows, field) + if FieldOf(row, field).Int? then 1 else 0
  {
    if rows == [] {
      assert [] + [row] == [row] && [row][1..] == [];
    } else {
      assert (rows + [row])[1..] == rows[1..] + [row];
      TotalMore(rows[1..], row, field);
    }
  }

  lemma {:induction false} SumMore(ns: seq<int>, n: int)
    ensures Sum(ns + [n]) == Sum(ns) + n
  {
    if ns == [] {
      assert [] + [n] == [n] && [n][1..] == [];
    } else {
      assert (ns + [n])[1..] == ns[1..] + [n];
      SumMore(ns[1..], n);
    }
  }

  lemma {:induction false} NumbersAre(rows: seq<Row>, field: string)
    ensures |Numbers(rows, field)| == Holders(rows, field) && Sum(Numbers(rows, field)) == Total(rows, field)
    ensures forall n :: n in Numbers(rows, field) <==> HeldBy(rows, field, n)
  {
    if rows != [] {
      var k := |rows| - 1;
      NumbersAre(rows[..k], field);
      TotalMore(rows[..k], rows[k], field);
      assert rows[..k] + [rows[k]] == rows;
      if FieldOf(rows[k], field).Int? {
        SumMore(Numbers(rows[..k], field), FieldOf(rows[k], field).i);
      } else {
        assert Numbers(rows[..k], field) + [] == Numbers(rows[..k], field);
      }
      forall n ensures HeldBy(rows, field, n) <==> HeldBy(rows[..k], field, n) || FieldOf(rows[k], field) == Int(n) {
        HeldMore(rows[..k], rows[k], field, n);
      }
    }
  }

  lemma HeldMore(rows: seq<Row>, row: Row, field: string, n: int)
    ensures HeldBy(rows + [row], field, n) <==> HeldBy(rows, field, n) || FieldOf(row, field) == Int(n)
  {
    assert row in rows + [row];
    if HeldBy(rows, field, n) {
      var r :| r in rows && FieldOf(r, field) == Int(n);
      assert r in rows + [row];
    }
  }

  lemma MeanTimesCount(sum: int, n: nat)
    requires n > 0
    ensures sum as real / n as real * n as real == sum as real
  {
  }

  lemma {:induction false} MetricIsHeld(spec: MetricSpec, rows: seq<Row>)
    ensures MetricHolds(spec, rows, MetricOf(spec, rows))
  {
    hide HeldBy, Total, Holders, Numbers, Sum, Least, Greatest;
    if !spec.Count? {
      NumbersAre(rows, spec.field);
      var ns := Numbers(rows, spec.field);
      if ns == [] {
        assert forall n :: !HeldBy(rows, spec.field, n);
      } else {
        assert HeldBy(rows, spec.field, ns[0]);
        assert HeldBy(rows, spec.field, Least(ns)) && HeldBy(rows, spec.field, Greatest(ns));
        MeanTimesCount(Sum(ns), |ns|);
        if spec.Avg? {
          assert MetricHolds(spec, rows, MetricOf(spec, rows));
        } else if spec.Min? {
          assert forall n :: HeldBy(rows, spec.field, n) ==> Least(ns) <= n;
        } else {
          assert forall n :: HeldBy(rows, spec.field, n) ==> n <= Greatest(ns);
        }
      }
    }
  }

  // ----- groups and facets -----

  function GroupAt(rows: seq<Row>, field: string, specs: seq<MetricSpec>, key: Value): Group {
    Group(key, CountOf(rows, field, key), MetricsOf(specs, Members(rows, field, key)))
  }

  function UpTo(n: nat, limit: nat): nat {
    if n < limit then n else limit
  }

  function KeysOf<T>(d: Dict<T>): (r: seq<Value>)
    ensures |r| == |d| && forall i :: 0 <= i < |d| ==> r[i] == d[i].pk
  {
    seq(|d|, i requires 0 <= i < |d| => d[i].pk)
  }

  /** One entry per key met, with the size its group has so far. */
  ghost predicate Tallied<T>(d: Dict<T>, size: T -> nat, rows: seq<Row>, field: string) {
    && Keyed(d)
    && (forall j :: 0 <= j < |d| ==> !d[j].pk.Null? && size(d[j].row) == CountOf(rows, field, d[j].pk) > 0)
    && (forall k: Value :: !k.Null? && CountOf(rows, field, k) > 0 ==> Holds(d, k))
  }

  lemma TwiceInMultiset(b: seq<Value>, i: nat, j: nat)
    requires i < j < |b| && b[i] == b[j]
    ensures multiset(b)[b[i]] >= 2
  {
    assert b == b[..j] + b[j..];
    assert b[i] in b[..j] && b[i] in b[j..];
    assert multiset(b[..j])[b[i]] >= 1 && multiset(b[j..])[b[i]] >= 1;
  }

  lemma DistinctRearranged(a: seq<Value>, b: seq<Value>)
    requires Distinct(a) && multiset(a) == multiset(b)
    ensures Distinct(b) && forall k :: k in b <==> k in a
  {
    DistinctOnce(a);
    forall i, j | 0 <= i < j < |b| ensures b[i] != b[j] {
      if b[i] == b[j] {
        TwiceInMultiset(b, i, j);
      }
    }
    forall k ensures k in b <==> k in a {
      assert k in multiset(b) <==> k in multiset(a);
    }
  }

  lemma HeldKeys<T>(d: Dict<T>, k: Value)
    ensures Holds(d, k) <==> k in KeysOf(d)
  {
    if k in KeysOf(d) {
      var i :| 0 <= i < |d| && KeysOf(d)[i] == k;
    }
    if Holds(d, k) {
      assert KeysOf(d)[Position(d, k)] == k;
    }
  }

  /** Sorting the keys of a full tally by size gives the group keys. */
  lemma SortedTally<T>(d: Dict<T>, size: T -> nat, rows: seq<Row>, field: string, count: Value -> nat)
    requires Tallied(d, size, rows, field)
    requires forall j :: 0 <= j < |d| ==> count(d[j].pk) == size(d[j].row)
    ensures GroupKeys(rows, field, Sort(KeysOf(d), ByCount(count)))
  {
    var keys := Sort(KeysOf(d), ByCount(count));
    OrderIsTotal(count);
    SortCorrect(KeysOf(d), ByCount(count));
    DistinctRearranged(KeysOf(d), keys);
    forall k | k in keys ensures !k.Null? && count(k) == CountOf(rows, field, k) > 0 {
      var i :| 0 <= i < |d| && KeysOf(d)[i] == k;
    }
    forall k: Value | !k.Null? && CountOf(rows, field, k) > 0 ensures k in keys {
      HeldKeys(d, k);
    }
  }

  lemma OneMoreRow(rows: seq<Row>, i: nat, field: string, k: Value)
    requires i < |rows|
    ensures Members(rows[..i + 1], field, k) == Members(rows[..i], field, k) + if FieldOf(rows[i], field) == k then [rows[i]] else []
    ensures CountOf(rows[..i + 1], field, k) == CountOf(rows[..i], field, k) + if FieldOf(rows[i], field) == k then 1 else 0
  {
    assert rows[..i + 1][..i] == rows[..i];
  }

  lemma PutHolds<T>(d: Dict<T>, pk: Value, x: T, k: Value)
    ensures Holds(Put(d, pk, x), k) <==> Holds(d, k) || k == pk
  {
    HeldKeys(d, k);
    HeldKeys(Put(d, pk, x), k);
    var p := Position(d, pk);
    assert p < |d| ==> KeysOf(Put(d, pk, x)) == KeysOf(d);
    assert p == |d| ==> KeysOf(Put(d, pk, x)) == KeysOf(d) + [pk];
    HeldKeys(d, pk);
  }

  lemma PutAt<T>(d: Dict<T>, pk: Value, x: T)
    requires Keyed(d)
    ensures Keyed(Put(d, pk, x)) && |d| <= |Put(d, pk, x)|
    ensures forall j :: 0 <= j < |Put(d, pk, x)| ==>
      Put(d, pk, x)[j] == if j == Position(d, pk) then Entry(pk, x) else if j < |d| then d[j] else Entry(pk, x)
    ensures forall j :: 0 <= j < |d| && j != Position(d, pk) ==> d[j].pk != pk
  {
  }

  /** A row without a value changes nothing; any other grows the entry of its key by one. */
  lemma TallySkip<T>(d: Dict<T>, size: T -> nat, rows: seq<Row>, i: nat, field: string)
    requires i < |rows| && Tallied(d, size, rows[..i], field) && FieldOf(rows[i], field).Null?
    ensures Tallied(d, size, rows[..i + 1], field)
  {
    forall k: Value ensures !k.Null? ==> CountOf(rows[..i + 1], field, k) == CountOf(rows[..i], field, k) {
      OneMoreRow(rows, i, field, k);
    }
  }

  lemma TallyHolds<T>(d: Dict<T>, rows: seq<Row>, i: nat, field: string, x: T, k: Value)
    requires i < |rows| && (CountOf(rows[..i], field, k) > 0 ==> Holds(d, k))
    ensures CountOf(rows[..i + 1], field, k) > 0 ==> Holds(Put(d, FieldOf(rows[i], field), x), k)
  {
    OneMoreRow(rows, i, field, k);
    PutHolds(d, FieldOf(rows[i], field), x, k);
  }

  lemma TallySizes<T>(d: Dict<T>, size: T -> nat, rows: seq<Row>, i: nat, field: string, x: T, j: nat)
    requires i < |rows| && Tallied(d, size, rows[..i], field) && !FieldOf(rows[i], field).Null?
    requires
      var p := Position(d, FieldOf(rows[i], field));
      size(x) == (if p < |d| then size(d[p].row) else 0) + 1
    requires j < |Put(d, FieldOf(rows[i], field), x)|
    ensures
      var e := Put(d, FieldOf(rows[i], field), x)[j];
      !e.pk.Null? && size(e.row) == CountOf(rows[..i + 1], field, e.pk) > 0
  {
    var value := FieldOf(rows[i], field);
    PutAt(d, value, x);
    OneMoreRow(rows, i, field, Put(d, value, x)[j].pk);
    if Position(d, value) == |d| {
      assert !Holds(d, value);
    }
  }

  lemma TallyStep<T>(d: Dict<T>, size: T -> nat, rows: seq<Row>, i: nat, field: string, x: T)
    requires i < |rows| && Tallied(d, size, rows[..i], field) && !FieldOf(rows[i], field).Null?
    requires
      var p := Position(d, FieldOf(rows[i], field));
      size(x) == (if p < |d| then size(d[p].row) else 0) + 1
    ensures Tallied(Put(d, FieldOf(rows[i], field), x), size, rows[..i + 1], field)
  {
    var after := Put(d, FieldOf(rows[i], field), x);
    PutAt(d, FieldOf(rows[i], field), x);
    forall k: Value | !k.Null? && CountOf(rows[..i + 1], field, k) > 0 ensures Holds(after, k) {
      TallyHolds(d, rows, i, field, x, k);
    }
    forall j | 0 <= j < |after| ensures !after[j].pk.Null? && size(after[j].row) == CountOf(rows[..i + 1], field, after[j].pk) > 0 {
      TallySizes(d, size, rows, i, field, x, j);
    }
  }

  function LengthOf(buckets: Dict<seq<Row>>, key: Value): nat {
    var p := Position(buckets, key);
    if p < |buckets| then |buckets[p].row| else 0
  }

  function Length(b: seq<Row>): nat {
    |b|
  }

  lemma OwnPosition<T>(d: Dict<T>, j: nat)
    requires Keyed(d) && j < |d|
    ensures Position(d, d[j].pk) == j
  {
  }

  ghost predicate Bucketed(buckets: Dict<seq<Row>>, rows: seq<Row>, field: string) {
    && Tallied(buckets, Length, rows, field)
    && forall j :: 0 <= j < |buckets| ==> buckets[j].row == Members(rows, field, buckets[j].pk)
  }

  lemma BucketStep(buckets: Dict<seq<Row>>, rows: seq<Row>, i: nat, field: string)
    requires i < |rows| && Bucketed(buckets, rows[..i], field) && !FieldOf(rows[i], field).Null?
    ensures
      var value := FieldOf(rows[i], field);
      var p := Position(buckets, value);
      Bucketed(Put(buckets, value, if p < |buckets| then buckets[p].row + [rows[i]] else [rows[i]]), rows[..i + 1], field)
  {
    var value := FieldOf(rows[i], field);
    var p := Position(buckets, value);
    var x := if p < |buckets| then buckets[p].row + [rows[i]] else [rows[i]];
    TallyStep(buckets, Length, rows, i, field, x);
    forall k: Value ensures Members(rows[..i + 1], field, k) == Members(rows[..i], field, k) + if value == k then [rows[i]] else [] {
      OneMoreRow(rows, i, field, k);
    }
    if p == |buckets| {
      assert !Holds(buckets, value);
      assert CountOf(rows[..i], field, value) == 0;
    }
  }

  method Buckets(rows: seq<Row>, field: string) returns (buckets: Dict<seq<Row>>)
    ensures Bucketed(buckets, rows, field)
  {
    buckets := [];
    for i := 0 to |rows|
      invariant Bucketed(buckets, rows[..i], field)
    {
      var value := FieldOf(rows[i], field);
      if value.Null? {
        TallySkip(buckets, Length, rows, i, field);
        forall k: Value ensures !k.Null? ==> Members(rows[..i + 1], field, k) == Members(rows[..i], field, k) {
          OneMoreRow(rows, i, field, k);
        }
      } else {
        BucketStep(buckets, rows, i, field);
        var p := Position(buckets, value);
        buckets := Put(buckets, value, if p < |buckets| then buckets[p].row + [rows[i]] else [rows[i]]);
      }
    }
    assert rows[..|rows|] == rows;
  }

  lemma BucketFound(buckets: Dict<seq<Row>>, rows: seq<Row>, field: string, keys: seq<Value>, i: nat)
    requires Bucketed(buckets, rows, field) && GroupKeys(rows, field, keys) && i < |keys|
    ensures
      var p := Position(buckets, keys[i]);
      p < |buckets| && buckets[p].row == Members(rows, field, keys[i])
  {
    assert keys[i] in keys;
    assert Holds(buckets, keys[i]);
  }

  method SortBuckets(rows: seq<Row>, field: string, buckets: Dict<seq<Row>>) returns (keys: seq<Value>)
    requires Bucketed(buckets, rows, field)
    ensures GroupKeys(rows, field, keys)
  {
    var count := k => LengthOf(buckets, k);
    forall j | 0 <= j < |buckets| ensures count(buckets[j].pk) == Length(buckets[j].row) {
      OwnPosition(buckets, j);
    }
    SortedTally(buckets, Length, rows, field, count);
    keys := Sort(KeysOf(buckets), ByCount(count));
  }

  method OneGroup(rows: seq<Row>, field: string, specs: seq<MetricSpec>, buckets: Dict<seq<Row>>, keys: seq<Value>, i: nat)
    returns (group: Group)
    requires Bucketed(buckets, rows, field) && GroupKeys(rows, field, keys) && i < |keys|
    ensures group == GroupAt(rows, field, specs, keys[i])
  {
    BucketFound(buckets, rows, field, keys, i);
    var bucket := buckets[Position(buckets, keys[i])].row;
    group := Group(keys[i], |bucket|, MetricsOf(specs, bucket));
  }

  /** One group for each of the first keys, up to the limit. */
  ghost predicate GroupsOf(rows: seq<Row>, field: string, limit: nat, specs: seq<MetricSpec>, keys: seq<Value>,
                           groups: seq<Group>) {
    && |groups| == UpTo(|keys|, if limit == 0 then DEFAULT_GROUP_LIMIT else limit)
    && forall i :: 0 <= i < |groups| ==> groups[i] == GroupAt(rows, field, specs, keys[i])
  }

  lemma GroupHolds(rows: seq<Row>, field: string, specs: seq<MetricSpec>, key: Value)
    ensures
      var g := GroupAt(rows, field, specs, key);
      && g.key == key && g.count == CountOf(rows, field, key) && |g.metrics| == |specs|
      && forall j :: 0 <= j < |specs| ==> MetricHolds(specs[j], Members(rows, field, key), g.metrics[j])
  {
    hide MetricHolds;
    forall j | 0 <= j < |specs| ensures MetricHolds(specs[j], Members(rows, field, key), MetricOf(specs[j], Members(rows, field, key))) {
      MetricIsHeld(specs[j], Members(rows, field, key));
    }
  }

  /** Groups come with larger counts first and, among equal counts, with smaller keys first, 50 of them unless a
      limit is given. */
  lemma GroupsComeInOrder(rows: seq<Row>, field: string, limit: nat, specs: seq<MetricSpec>, keys: seq<Value>, groups: seq<Group>)
    requires GroupKeys(rows, field, keys) && GroupsOf(rows, field, limit, specs, keys, groups)
    ensures
      var most := if limit != 0 then limit else 50;
      && |groups| == (if |keys| < most then |keys| else most)
      && forall i, j :: 0 <= i < j < |groups| ==>
           groups[i].count > groups[j].count || (groups[i].count == groups[j].count && Leq(groups[i].key, groups[j].key))
  {
    hide CountOf, MetricsOf;
    forall i, j | 0 <= i < j < |groups| ensures GroupOrder(rows, field)(keys[i], keys[j]) {
    }
  }

  /** The groups of the rows, largest first, up to the limit, and how many there are in all. */
  method ComputeGroups(rows: seq<Row>, field: string, limit: nat, specs: seq<MetricSpec>)
    returns (groups: seq<Group>, total: nat)
    ensures exists keys :: GroupKeys(rows, field, keys) && total == |keys| && GroupsOf(rows, field, limit, specs, keys, groups)
    ensures forall g :: g in groups ==>
      && g.count == CountOf(rows, field, g.key) && |g.metrics| == |specs|
      && forall j :: 0 <= j < |specs| ==> MetricHolds(specs[j], Members(rows, field, g.key), g.metrics[j])
  {
    var buckets := Buckets(rows, field);
    var ordered := SortBuckets(rows, field, buckets);
    hide GroupKeys, Bucketed, GroupAt;
    total := |ordered|;
    var n := UpTo(total, if limit == 0 then DEFAULT_GROUP_LIMIT else limit);
    groups := [];
    for i := 0 to n
      invariant |groups| == i && forall j :: 0 <= j < i ==> groups[j] == GroupAt(rows, field, specs, ordered[j])
    {
      var group := OneGroup(rows, field, specs, buckets, ordered, i);
      groups := groups + [group];
    }
    assert GroupsOf(rows, field, limit, specs, ordered, groups);
    forall g | g in groups
      ensures g.count == CountOf(rows, field, g.key) && |g.metrics| == |specs|
      ensures forall j :: 0 <= j < |specs| ==> MetricHolds(specs[j], Members(rows, field, g.key), g.metrics[j])
    {
      var i :| 0 <= i < |groups| && groups[i] == g;
      GroupHolds(rows, field, specs, ordered[i]);
    }
  }

  function Identity(n: nat): nat {
    n
  }

  method Tally(rows: seq<Row>, field: string) returns (counts: Dict<nat>)
    ensures Tallied(counts, Identity, rows, field)
  {
    counts := [];
    for i := 0 to |rows|
      invariant Tallied(counts, Identity, rows[..i], field)
    {
      var value := FieldOf(rows[i], field);
      if value.Null? {
        TallySkip(counts, Identity, rows, i, field);
      } else {
        var p := Position(counts, value);
        var n := if p < |counts| then counts[p].row + 1 else 1;
        TallyStep(counts, Identity, rows, i, field, n);
        counts := Put(counts, value, n);
      }
    }
    assert rows[..|rows|] == rows;
  }

  function CountIn(counts: Dict<nat>, key: Value): nat {
    var p := Position(counts, key);
    if p < |counts| then counts[p].row else 0
  }

  lemma CountFound(counts: Dict<nat>, rows: seq<Row>, field: string, keys: seq<Value>, i: nat)
    requires Tallied(counts, Identity, rows, field) && GroupKeys(rows, field, keys) && i < |keys|
    ensures CountIn(counts, keys[i]) == CountOf(rows, field, keys[i])
  {
    assert keys[i] in keys;
    assert Holds(counts, keys[i]);
  }

  method SortCounts(rows: seq<Row>, field: string, counts: Dict<nat>) returns (keys: seq<Value>)
    requires Tallied(counts, Identity, rows, field)
    ensures GroupKeys(rows, field, keys)
  {
    var count := k => CountIn(counts, k);
    forall j | 0 <= j < |counts| ensures count(counts[j].pk) == Identity(counts[j].row) {
      OwnPosition(counts, j);
    }
    SortedTally(counts, Identity, rows, field, count);
    keys := Sort(KeysOf(counts), ByCount(count));
  }

  /** One pair of a value and its count for each of the first keys, up to the limit. */
  ghost predicate FacetsOf(rows: seq<Row>, field: string, limit: nat, keys: seq<Value>, facets: seq<Facet>) {
    && |facets| == UpTo(|keys|, if limit == 0 then DEFAULT_FACET_LIMIT else limit)
    && forall i :: 0 <= i < |facets| ==> facets[i] == Facet(keys[i], CountOf(rows, field, keys[i]))
  }

  /** The (value, count) pairs of a facet. */
  method ComputeFacet(rows: seq<Row>, field: string, limit: nat) returns (facets: seq<Facet>)
    ensures exists keys :: GroupKeys(rows, field, keys) && FacetsOf(rows, field, limit, keys, facets)
  {
    var counts := Tally(rows, field);
    var ordered := SortCounts(rows, field, counts);
    hide GroupKeys, Tallied;
    var n := UpTo(|ordered|, if limit == 0 then DEFAULT_FACET_LIMIT else limit);
    facets := [];
    for i := 0 to n
      invariant |facets| == i && forall j :: 0 <= j < i ==> facets[j] == Facet(ordered[j], CountOf(rows, field, ordered[j]))
    {
      CountFound(counts, rows, field, ordered, i);
      facets := facets + [Facet(ordered[i], CountIn(counts, ordered[i]))];
    }
    assert FacetsOf(rows, field, limit, ordered, facets);
  }

  /** With the same limit a facet lists exactly the keys and counts of the groups, and both are the
      same for any other order of the rows, metrics included. */
  lemma FacetsAgreeWithGroups(rows: seq<Row>, others: seq<Row>, field: string, specs: seq<MetricSpec>,
                              groupKeys: seq<Value>, facetKeys: seq<Value>, i: nat)
    requires multiset(rows) == multiset(others)
    requires GroupKeys(rows, field, groupKeys) && GroupKeys(others, field, facetKeys) && i < |groupKeys|
    ensures groupKeys == facetKeys
    ensures
      var group := GroupAt(rows, field, specs, groupKeys[i]);
      Facet(group.key, group.count) == Facet(facetKeys[i], CountOf(others, field, facetKeys[i]))
      && group == GroupAt(others, field, specs, facetKeys[i])
  {
    GroupKeysAreDetermined(rows, others, field, groupKeys, facetKeys);
    var key := groupKeys[i];
    SameMembersOf(rows, others, field, key);
    var ms, ns := Members(rows, field, key), Members(others, field, key);
    forall j | 0 <= j < |specs| ensures MetricsOf(specs, ms)[j] == MetricsOf(specs, ns)[j] {
      MetricsIgnoreOrder(specs[j], ms, ns);
    }
    assert MetricsOf(specs, ms) == MetricsOf(specs, ns);
  }

  /** Asked with one positive limit, the two operations give one list of values and counts. */
  lemma FacetsAreGroups(rows: seq<Row>, others: seq<Row>, field: string, limit: nat, specs: seq<MetricSpec>,
                        groupKeys: seq<Value>, facetKeys: seq<Value>, groups: seq<Group>, facets: seq<Facet>)
    requires multiset(rows) == multiset(others) && limit > 0
    requires GroupKeys(rows, field, groupKeys) && GroupsOf(rows, field, limit, specs, groupKeys, groups)
    requires GroupKeys(others, field, facetKeys) && FacetsOf(others, field, limit, facetKeys, facets)
    ensures |groups| == |facets| && forall i :: 0 <= i < |groups| ==> facets[i] == Facet(groups[i].key, groups[i].count)
  {
    hide GroupKeys, GroupAt, CountOf;
    GroupKeysAreDetermined(rows, others, field, groupKeys, facetKeys);
    forall i | 0 <= i < |groups| ensures facets[i] == Facet(groups[i].key, groups[i].count) {
      FacetsAgreeWithGroups(rows, others, field, specs, groupKeys, facetKeys, i);
    }
  }

  /** A facet has 10 values unless a limit is given, in the same order. */
  lemma FacetsComeInOrder(rows: seq<Row>, field: string, limit: nat, keys: seq<Value>, facets: seq<Facet>)
    requires GroupKeys(rows, field, keys) && FacetsOf(rows, field, limit, keys, facets)
    ensures
      var most := if limit != 0 then limit else 10;
      && |facets| == (if |keys| < most then |keys| else most)
      && forall i, j :: 0 <= i < j < |facets| ==>
           facets[i].count > facets[j].count || (facets[i].count == facets[j].count && Leq(facets[i].value, facets[j].value))
  {
    hide CountOf;
    forall i, j | 0 <= i < j < |facets| ensures GroupOrder(rows, field)(keys[i], keys[j]) {
    }
  }
}
