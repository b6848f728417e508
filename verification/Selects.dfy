/**
  The select of the reference engine: filter, order, slice from the offset, slice to the limit, project
  into new rows.
 */
module Selects {
  import opened Values
  import opened Sorting
  import opened Predicates
  import Ordering

  type SortTerm = Ordering.SortTerm

  /** An empty projection stands for none. */
  datatype Select = Select(projection: seq<string>, filters: seq<Pred>, sort: seq<SortTerm>,
                           limit: Option<nat>, offset: nat)

  function OnlyColumns(row: Row, names: set<string>): Row {
    map k | k in row && k in names :: row[k]
  }

  function Filtered(rows: seq<Row>, filters: seq<Pred>): seq<Row> {
    if rows == [] then []
    else
      var rest := Filtered(rows[1..], filters);
      if MatchesAll(rows[0], filters) == Ok(true) then [rows[0]] + rest else rest
  }

  /** Projection keeps the named fields and the primary key. */
  function Kept(row: Row, projection: seq<string>, primaryKey: string): Row {
    if projection == [] then row else OnlyColumns(row, (set n | n in projection) + {primaryKey})
  }

  function KeptOfEach(rows: seq<Row>, projection: seq<string>, primaryKey: string): seq<Row> {
    if rows == [] then [] else [Kept(rows[0], projection, primaryKey)] + KeptOfEach(rows[1..], projection, primaryKey)
  }

  /** Filter, order (the outcome of Ordering.ApplyOrder), slice from the offset, slice to the limit,
      project. */
  function ReferenceSelect(q: Select, primaryKey: string, table: seq<Row>): seq<Row> {
    var ordered := Sort(Filtered(table, q.filters), Ordering.OrderLeq(q.sort));
    var rest := if q.offset <= |ordered| then ordered[q.offset..] else [];
    var page := if q.limit.Some? && q.limit.value <= |rest| then rest[..q.limit.value] else rest;
    KeptOfEach(page, q.projection, primaryKey)
  }

  /** The index of the first row on which the filters fail to evaluate, or the length. */
  function FirstFailing(rows: seq<Row>, filters: seq<Pred>): (i: nat)
    ensures i <= |rows| && (i < |rows| ==> MatchesAll(rows[i], filters).Err?)
    ensures forall k :: 0 <= k < i ==> MatchesAll(rows[k], filters).Ok?
  {
    if rows == [] || MatchesAll(rows[0], filters).Err? then 0 else 1 + FirstFailing(rows[1..], filters)
  }

  /** The rows of the select, or the error of the first row on which the filters fail. */
  function SelectRows(key: string, rows: seq<Row>, q: Select): Result<seq<Row>, EvalError> {
    var bad := FirstFailing(rows, q.filters);
    if bad < |rows| then Err(MatchesAll(rows[bad], q.filters).error) else Ok(ReferenceSelect(q, key, rows))
  }

  lemma {:induction false} FilteredSize(rows: seq<Row>, filters: seq<Pred>)
    ensures |Filtered(rows, filters)| <= |rows|
  {
    if rows != [] {
      FilteredSize(rows[1..], filters);
    }
  }

  lemma {:induction false} FilteredMore(rows: seq<Row>, row: Row, filters: seq<Pred>)
    ensures Filtered(rows + [row], filters) == Filtered(rows, filters) + if MatchesAll(row, filters) == Ok(true) then [row] else []
  {
    if rows == [] {
      assert [] + [row] == [row] && [row][1..] == [];
    } else {
      assert (rows + [row])[1..] == rows[1..] + [row];
      FilteredMore(rows[1..], row, filters);
    }
  }

  lemma {:induction false} KeptOfMore(rows: seq<Row>, row: Row, projection: seq<string>, primaryKey: string)
    ensures KeptOfEach(rows + [row], projection, primaryKey) ==
      KeptOfEach(rows, projection, primaryKey) + [Kept(row, projection, primaryKey)]
  {
    if rows == [] {
      assert [] + [row] == [row] && [row][1..] == [];
    } else {
      assert (rows + [row])[1..] == rows[1..] + [row];
      KeptOfMore(rows[1..], row, projection, primaryKey);
    }
  }

  // ----- what the answer of a select is -----

  /** The row has exactly those fields of the stored row that are asked for, with their values. */
  ghost predicate Projects(r: Row, stored: Row, asked: set<string>) {
    && (forall k :: k in r <==> k in stored && k in asked)
    && (forall k :: k in r && k in stored ==> r[k] == stored[k])
  }

  lemma {:induction false} FilteredAre(rows: seq<Row>, filters: seq<Pred>)
    ensures forall r :: multiset(Filtered(rows, filters))[r] == if MatchesAll(r, filters) == Ok(true) then multiset(rows)[r] else 0
  {
    if rows != [] {
      FilteredAre(rows[1..], filters);
      assert rows == [rows[0]] + rows[1..];
    }
  }

  lemma {:induction false} KeptAt(rows: seq<Row>, projection: seq<string>, primaryKey: string, i: nat)
    requires i < |rows|
    ensures i < |KeptOfEach(rows, projection, primaryKey)| == |rows|
    ensures KeptOfEach(rows, projection, primaryKey)[i] == Kept(rows[i], projection, primaryKey)
  {
    KeptSize(rows, projection, primaryKey);
    if i > 0 {
      KeptAt(rows[1..], projection, primaryKey, i - 1);
    }
  }

  lemma {:induction false} KeptSize(rows: seq<Row>, projection: seq<string>, primaryKey: string)
    ensures |KeptOfEach(rows, projection, primaryKey)| == |rows|
  {
    if rows != [] {
      KeptSize(rows[1..], projection, primaryKey);
    }
  }

  lemma KeptProjects(row: Row, projection: seq<string>, primaryKey: string)
    ensures if projection == [] then Kept(row, projection, primaryKey) == row
            else Projects(Kept(row, projection, primaryKey), row, (set n | n in projection) + {primaryKey})
  {
  }

  /** The rows that match, each as often as it is stored, in the stable order asked for; of them those from
      the offset on and up to the limit; of each the named fields and the primary key, or all fields. */
  lemma SelectReturns(key: string, rows: seq<Row>, q: Select) returns (ordered: seq<Row>)
    requires SelectRows(key, rows, q).Ok?
    ensures forall r :: multiset(ordered)[r] == if MatchesAll(r, q.filters) == Ok(true) then multiset(rows)[r] else 0
    ensures SortedBy(ordered, Ordering.OrderLeq(q.sort)) && StableRearrangement(Filtered(rows, q.filters), ordered, Ordering.OrderLeq(q.sort))
    ensures
      var out := SelectRows(key, rows, q).value;
      var left := if q.offset <= |ordered| then |ordered| - q.offset else 0;
      && |out| == (if q.limit.Some? && q.limit.value < left then q.limit.value else left)
      && forall i :: 0 <= i < |out| ==>
           var stored := ordered[q.offset + i];
           if q.projection == [] then out[i] == stored else Projects(out[i], stored, (set n | n in q.projection) + {key})
  {
    hide Kept, Projects, Filtered, StableRearrangement, SortedBy, KeptOfEach, MatchesAll, Ordering.OrderLeq, Sort;
    var matching := Filtered(rows, q.filters);
    ordered := Sort(matching, Ordering.OrderLeq(q.sort));
    FilteredAre(rows, q.filters);
    Ordering.OrderPreorder(q.sort);
    SortCorrect(matching, Ordering.OrderLeq(q.sort));
    PageReturns(ordered, q, key);
  }

  /** The page that is cut out of the ordered rows, projected. */
  lemma PageReturns(ordered: seq<Row>, q: Select, key: string)
    ensures
      var rest := if q.offset <= |ordered| then ordered[q.offset..] else [];
      var page := if q.limit.Some? && q.limit.value <= |rest| then rest[..q.limit.value] else rest;
      var out := KeptOfEach(page, q.projection, key);
      && |out| == |page|
      && forall i :: 0 <= i < |out| ==>
           var stored := ordered[q.offset + i];
           if q.projection == [] then out[i] == stored else Projects(out[i], stored, (set n | n in q.projection) + {key})
  {
    hide Kept, Projects, KeptOfEach;
    var rest := if q.offset <= |ordered| then ordered[q.offset..] else [];
    var page := if q.limit.Some? && q.limit.value <= |rest| then rest[..q.limit.value] else rest;
    KeptSize(page, q.projection, key);
    var out := KeptOfEach(page, q.projection, key);
    forall i | 0 <= i < |out|
      ensures if q.projection == [] then out[i] == ordered[q.offset + i]
              else Projects(out[i], ordered[q.offset + i], (set n | n in q.projection) + {key})
    {
      KeptAt(page, q.projection, key, i);
      KeptProjects(page[i], q.projection, key);
    }
  }

  /** A select fails if and only if its filters fail on some stored row. */
  lemma SelectFailsExactly(key: string, rows: seq<Row>, q: Select)
    ensures SelectRows(key, rows, q).Err? <==> exists r :: r in rows && MatchesAll(r, q.filters).Err?
  {
    var bad := FirstFailing(rows, q.filters);
    if bad < |rows| {
      assert rows[bad] in rows;
    } else {
      forall r | r in rows ensures MatchesAll(r, q.filters).Ok? {
        var i :| 0 <= i < |rows| && rows[i] == r;
      }
    }
  }

  method KeepMatching(rows: seq<Row>, filters: seq<Pred>) returns (r: Result<seq<Row>, EvalError>)
    ensures
      var bad := FirstFailing(rows, filters);
      r == if bad < |rows| then Err(MatchesAll(rows[bad], filters).error) else Ok(Filtered(rows, filters))
  {
    var kept: seq<Row> := [];
    for i := 0 to |rows|
      invariant i <= FirstFailing(rows, filters) && kept == Filtered(rows[..i], filters)
    {
      var hit := MatchesAll(rows[i], filters);
      if hit.Err? {
        return Err(hit.error);
      }
      assert rows[..i + 1] == rows[..i] + [rows[i]];
      FilteredMore(rows[..i], rows[i], filters);
      if hit.value {
        kept := kept + [rows[i]];
      }
    }
    assert rows[..|rows|] == rows;
    r := Ok(kept);
  }

  method ProjectEach(rows: seq<Row>, projection: seq<string>, primaryKey: string) returns (out: seq<Row>)
    ensures out == KeptOfEach(rows, projection, primaryKey)
  {
    out := [];
    for i := 0 to |rows|
      invariant out == KeptOfEach(rows[..i], projection, primaryKey)
    {
      assert rows[..i + 1] == rows[..i] + [rows[i]];
      KeptOfMore(rows[..i], rows[i], projection, primaryKey);
      out := out + [Kept(rows[i], projection, primaryKey)];
    }
    assert rows[..|rows|] == rows;
  }

  method ExecuteSelect(key: string, table: seq<Row>, q: Select) returns (r: Result<seq<Row>, EvalError>)
    ensures r == SelectRows(key, table, q)
  {
    hide Filtered, KeptOfEach;
    var kept := KeepMatching(table, q.filters);
    if kept.Err? {
      return Err(kept.error);
    }
    var rows := Ordering.ApplyOrder(q.sort, kept.value);
    rows := if q.offset <= |rows| then rows[q.offset..] else [];
    if q.limit.Some? && q.limit.value <= |rows| {
      rows := rows[..q.limit.value];
    }
    rows := ProjectEach(rows, q.projection, key);
    r := Ok(rows);
  }
}
