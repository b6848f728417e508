/**
  Graph traversal in the reference engine: links and reverse links followed step by step compose the
  relations they stand for, unless rows share a key field; what is reached, what is lost, and in which
  order the rows come.
 */
module Traversal {
  import opened Values
  import opened Predicates
  import opened Tables

  /** A collection has no column of its own: it is read through the first link of the target model
      that points back. */
  datatype Relationship = Relationship(name: string, link: bool, target: string)

  datatype Schema = Schema(key: string, relationships: seq<Relationship>)

  datatype World = World(schemas: map<string, Schema>, tables: map<string, Table>)

  datatype TraverseError = Fault(cause: EvalError) | TooDeep | NoRelationship

  function SchemaOf(w: World, model: string): Schema {
    if model in w.schemas then w.schemas[model] else Schema("id", [])
  }

  function TableOf(w: World, model: string): Table {
    if model in w.tables then w.tables[model] else []
  }

  /** Keys are distinct and never null. */
  ghost predicate Sound(w: World) {
    forall m :: m in w.tables ==> Keyed(w.tables[m])
  }

  /** The key a row holds, which an update may have set apart from the key it is stored under. */
  function KeyField(w: World, model: string, e: Entry<Row>): Value {
    FieldOf(e.row, SchemaOf(w, model).key)
  }

  function Named(rs: seq<Relationship>, name: string): Option<Relationship> {
    if rs == [] then None else if rs[0].name == name then Some(rs[0]) else Named(rs[1..], name)
  }

  function BackLink(rs: seq<Relationship>, model: string): Option<Relationship> {
    if rs == [] then None else if rs[0].link && rs[0].target == model then Some(rs[0]) else BackLink(rs[1..], model)
  }

  /** Of several relationships the first one counts. */
  lemma {:induction false} FirstCounts(rs: seq<Relationship>, name: string, model: string)
    ensures
      var n := Named(rs, name);
      if n.None? then forall i :: 0 <= i < |rs| ==> rs[i].name != name
      else exists i :: 0 <= i < |rs| && rs[i] == n.value && rs[i].name == name && forall k :: 0 <= k < i ==> rs[k].name != name
    ensures
      var b := BackLink(rs, model);
      if b.None? then forall i :: 0 <= i < |rs| ==> !(rs[i].link && rs[i].target == model)
      else exists i :: 0 <= i < |rs| && rs[i] == b.value && rs[i].link && rs[i].target == model
             && forall k :: 0 <= k < i ==> !(rs[k].link && rs[k].target == model)
  {
    if rs != [] {
      var rest := rs[1..];
      FirstCounts(rest, name, model);
      assert rs == [rs[0]] + rest;
      if i :| 0 <= i < |rest| && Some(rest[i]) == Named(rest, name) && rest[i].name == name && forall k :: 0 <= k < i ==> rest[k].name != name {
        assert rs[i + 1] == rest[i] && forall k :: 0 < k < i + 1 ==> rs[k] == rest[k - 1];
      }
      if i :| 0 <= i < |rest| && Some(rest[i]) == BackLink(rest, model) && rest[i].link && rest[i].target == model
              && forall k :: 0 <= k < i ==> !(rest[k].link && rest[k].target == model) {
        assert rs[i + 1] == rest[i] && forall k :: 0 < k < i + 1 ==> rs[k] == rest[k - 1];
      }
    }
  }

  // ----- the relation a step stands for -----

  /** `row` of the model is related to the target row `other`. */
  predicate Linked(w: World, model: string, r: Relationship, row: Row, other: Entry<Row>) {
    if r.link then FieldOf(row, r.name) == other.pk
    else
      var back := BackLink(SchemaOf(w, r.target).relationships, model);
      back.Some? && FieldOf(other.row, back.value.name) == FieldOf(row, SchemaOf(w, model).key)
  }

  /** The model a list of steps leads to, if every step names a relationship. */
  function ModelAfter(w: World, model: string, steps: seq<string>): Option<string>
    decreases |steps|
  {
    if steps == [] then Some(model)
    else
      var before := ModelAfter(w, model, steps[..|steps| - 1]);
      if before.None? then None
      else
        var r := Named(SchemaOf(w, before.value).relationships, steps[|steps| - 1]);
        if r.None? then None else Some(r.value.target)
  }

  /** The relationship the last step follows, and the model it is taken from. */
  function LastModel(w: World, model: string, steps: seq<string>): string
    requires steps != [] && ModelAfter(w, model, steps).Some?
  {
    ModelAfter(w, model, steps[..|steps| - 1]).value
  }

  function LastStep(w: World, model: string, steps: seq<string>): (r: Relationship)
    requires steps != [] && ModelAfter(w, model, steps).Some?
    ensures r.target == ModelAfter(w, model, steps).value
  {
    Named(SchemaOf(w, LastModel(w, model, steps)).relationships, steps[|steps| - 1]).value
  }

  /** The second entry is stored after the first. */
  ghost predicate Later(t: Table, e: Entry<Row>, x: Entry<Row>) {
    exists i, j :: 0 <= i < j < |t| && t[i] == e && t[j] == x
  }

  /** The last step leads to the row from one that the steps before it reach. */
  ghost predicate Led(w: World, model: string, start: seq<Pred>, steps: seq<string>, e: Entry<Row>)
    requires steps != [] && ModelAfter(w, model, steps).Some?
    decreases |steps|, 0
  {
    var source := LastModel(w, model, steps);
    var r := LastStep(w, model, steps);
    && e in TableOf(w, r.target)
    && exists from :: from in TableOf(w, source) && Reached(w, model, start, steps[..|steps| - 1], from) && Linked(w, source, r, from.row, e)
  }

  /** A later row that the same collection holds has the same key field, and takes this one's place. */
  ghost predicate Replaced(w: World, model: string, start: seq<Pred>, steps: seq<string>, e: Entry<Row>)
    requires steps != [] && ModelAfter(w, model, steps).Some?
    decreases |steps|, 1
  {
    var r := LastStep(w, model, steps);
    !r.link && exists x :: Led(w, model, start, steps, x) && Later(TableOf(w, r.target), e, x)
                 && KeyField(w, r.target, x) == KeyField(w, r.target, e)
  }

  /** The steps lead from some row that satisfies the start filters to this one, and no other takes its
      place. */
  ghost predicate Reached(w: World, model: string, start: seq<Pred>, steps: seq<string>, e: Entry<Row>)
    requires ModelAfter(w, model, steps).Some?
    decreases |steps|, 2
  {
    if steps == [] then e in TableOf(w, model) && Matched(e.row, start)
    else Led(w, model, start, steps, e) && !Replaced(w, model, start, steps, e)
  }

  lemma {:induction false} ReachedIsStored(w: World, model: string, start: seq<Pred>, steps: seq<string>, e: Entry<Row>)
    requires ModelAfter(w, model, steps).Some? && Reached(w, model, start, steps, e)
    ensures e in TableOf(w, ModelAfter(w, model, steps).value)
  {
  }

  /** A chain of stored rows, one per model along the steps, each related to the next. */
  ghost predicate Chain(w: World, model: string, steps: seq<string>, path: seq<Entry<Row>>)
    requires ModelAfter(w, model, steps).Some?
    decreases |steps|
  {
    && |path| == |steps| + 1
    && if steps == [] then path[0] in TableOf(w, model)
       else
         var n := |steps| - 1;
         var r := LastStep(w, model, steps);
         && Chain(w, model, steps[..n], path[..n + 1])
         && path[n + 1] in TableOf(w, r.target) && Linked(w, LastModel(w, model, steps), r, path[n].row, path[n + 1])
  }

  /** What a step leads to is the end of a chain that starts at a row satisfying the start filters. */
  lemma {:induction false} LedIsAChain(w: World, model: string, start: seq<Pred>, steps: seq<string>, e: Entry<Row>)
    returns (path: seq<Entry<Row>>)
    requires steps != [] && ModelAfter(w, model, steps).Some? && Led(w, model, start, steps, e)
    ensures Chain(w, model, steps, path) && path[|steps|] == e && Matched(path[0].row, start)
    decreases |steps|, 0
  {
    var n := |steps| - 1;
    var source := LastModel(w, model, steps);
    var r := LastStep(w, model, steps);
    var from :| from in TableOf(w, source) && Reached(w, model, start, steps[..n], from) && Linked(w, source, r, from.row, e);
    var before := ReachedIsAChain(w, model, start, steps[..n], from);
    path := before + [e];
    assert path[..n + 1] == before;
  }

  /** Being reached is being the end of such a chain. */
  lemma {:induction false} ReachedIsAChain(w: World, model: string, start: seq<Pred>, steps: seq<string>, e: Entry<Row>)
    returns (path: seq<Entry<Row>>)
    requires ModelAfter(w, model, steps).Some? && Reached(w, model, start, steps, e)
    ensures Chain(w, model, steps, path) && path[|steps|] == e && Matched(path[0].row, start)
    decreases |steps|, 1
  {
    if steps == [] {
      path := [e];
    } else {
      path := LedIsAChain(w, model, start, steps, e);
    }
  }

  lemma {:induction false} ChainEnd(w: World, model: string, steps: seq<string>, path: seq<Entry<Row>>)
    requires ModelAfter(w, model, steps).Some? && Chain(w, model, steps, path)
    ensures path[|steps|] in TableOf(w, ModelAfter(w, model, steps).value)
  {
  }

  // ----- when the end of every chain is reached -----

  /** The last step leads to two rows of a collection with one key field. */
  ghost predicate Collides(w: World, model: string, start: seq<Pred>, steps: seq<string>)
    requires ModelAfter(w, model, steps).Some?
  {
    steps != [] && exists e :: Led(w, model, start, steps, e) && Replaced(w, model, start, steps, e)
  }

  /** The end of every chain along the steps is reached. */
  ghost predicate ReachesAll(w: World, model: string, start: seq<Pred>, steps: seq<string>)
    requires ModelAfter(w, model, steps).Some?
  {
    forall path: seq<Entry<Row>> :: Chain(w, model, steps, path) && Matched(path[0].row, start) ==> Reached(w, model, start, steps, path[|steps|])
  }

  lemma {:induction false} PrefixHasModel(w: World, model: string, steps: seq<string>, i: nat)
    requires i <= |steps| && ModelAfter(w, model, steps).Some?
    ensures ModelAfter(w, model, steps[..i]).Some?
    decreases |steps|
  {
    if i == |steps| {
      assert steps[..i] == steps;
    } else {
      assert steps[..|steps| - 1][..i] == steps[..i];
      PrefixHasModel(w, model, steps[..|steps| - 1], i);
    }
  }

  /** One more step loses nothing exactly if no two rows it leads to collide. */
  lemma {:induction false} OneStepReachesAll(w: World, model: string, start: seq<Pred>, steps: seq<string>)
    requires steps != [] && ModelAfter(w, model, steps).Some? && ReachesAll(w, model, start, steps[..|steps| - 1])
    ensures ReachesAll(w, model, start, steps) <==> !Collides(w, model, start, steps)
  {
    hide Linked, Matched, Replaced;
    var n := |steps| - 1;
    if ReachesAll(w, model, start, steps) && Collides(w, model, start, steps) {
      var e :| Led(w, model, start, steps, e) && Replaced(w, model, start, steps, e);
      var path := LedIsAChain(w, model, start, steps, e);
      assert false;
    }
    if !Collides(w, model, start, steps) {
      forall path: seq<Entry<Row>> | Chain(w, model, steps, path) && Matched(path[0].row, start)
        ensures Reached(w, model, start, steps, path[|steps|])
      {
        ChainEnd(w, model, steps[..n], path[..n + 1]);
        assert Reached(w, model, start, steps[..n], path[..n + 1][n]);
        assert Led(w, model, start, steps, path[n + 1]);
      }
    }
  }

  lemma StartReachesAll(w: World, model: string, start: seq<Pred>)
    ensures ReachesAll(w, model, start, [])
  {
  }

  /** Nothing is lost on the way, the end of every chain along any first part of the steps being reached, if
      and only if no step leads to two rows of a collection that share the key field. */
  lemma {:induction false} ChainsAreReachedExactly(w: World, model: string, start: seq<Pred>, steps: seq<string>)
    requires ModelAfter(w, model, steps).Some?
    ensures forall i :: 0 <= i <= |steps| ==> ModelAfter(w, model, steps[..i]).Some?
    ensures (forall i :: 0 <= i <= |steps| ==> ReachesAll(w, model, start, steps[..i])) <==>
      (forall i :: 0 <= i <= |steps| ==> !Collides(w, model, start, steps[..i]))
    decreases |steps|
  {
    hide ReachesAll, Collides;
    forall i | 0 <= i <= |steps| ensures ModelAfter(w, model, steps[..i]).Some? {
      PrefixHasModel(w, model, steps, i);
    }
    assert steps[..|steps|] == steps;
    if steps == [] {
      StartReachesAll(w, model, start);
      NoStepCollides(w, model, start);
    } else {
      var n := |steps| - 1;
      forall i | 0 <= i <= n ensures steps[..n][..i] == steps[..i] {
      }
      ChainsAreReachedExactly(w, model, start, steps[..n]);
      assert steps[..n][..n] == steps[..n];
      if ReachesAll(w, model, start, steps[..n]) {
        OneStepReachesAll(w, model, start, steps);
      }
    }
  }

  lemma NoStepCollides(w: World, model: string, start: seq<Pred>)
    ensures !Collides(w, model, start, [])
  {
  }

  /** While no primary key is updated, every row lies under its own, and nothing collides. */
  lemma {:induction false} ConsistentNeverCollides(w: World, model: string, start: seq<Pred>, steps: seq<string>)
    requires ModelAfter(w, model, steps).Some? && Sound(w)
    requires forall m :: m in w.tables ==> Consistent(Model(SchemaOf(w, m).key, {}), w.tables[m])
    ensures !Collides(w, model, start, steps)
  {
    hide Linked, Matched;
  }

  /** Every chain's end is reached where no primary key was updated. */
  lemma {:induction false} ChainIsReached(w: World, model: string, start: seq<Pred>, steps: seq<string>, path: seq<Entry<Row>>)
    requires Sound(w) && forall m :: m in w.tables ==> Consistent(Model(SchemaOf(w, m).key, {}), w.tables[m])
    requires ModelAfter(w, model, steps).Some? && Chain(w, model, steps, path) && Matched(path[0].row, start)
    ensures Reached(w, model, start, steps, path[|steps|])
  {
    hide Reached, Chain, Matched, Collides, Sound, Consistent;
    ChainsAreReachedExactly(w, model, start, steps);
    forall i | 0 <= i <= |steps| ensures !Collides(w, model, start, steps[..i]) {
      ConsistentNeverCollides(w, model, start, steps[..i]);
    }
    assert steps[..|steps|] == steps;
    assert ReachesAll(w, model, start, steps);
  }

  /** A rewritten key: two orders of one customer that an update gave one key field; the first is lost. */
  lemma RekeyedRowIsLost(customer: Value, order: Value, a: Value, b: Value)
    requires !customer.Null? && !a.Null? && !b.Null? && a != b
    ensures
      var w := Orders(customer, order, a, b);
      && Sound(w) && ModelAfter(w, "Customer", ["orders"]) == Some("Order")
      && Led(w, "Customer", [], ["orders"], w.tables["Order"][0]) && !Reached(w, "Customer", [], ["orders"], w.tables["Order"][0])
  {
    var w := Orders(customer, order, a, b);
    var first, second := w.tables["Order"][0], w.tables["Order"][1];
    var from := w.tables["Customer"][0];
    assert ["orders"][..0] == [];
    assert Reached(w, "Customer", [], [], from);
    assert Led(w, "Customer", [], ["orders"], first) && Led(w, "Customer", [], ["orders"], second);
    assert Later(w.tables["Order"], first, second);
  }

  function Orders(customer: Value, order: Value, a: Value, b: Value): World {
    World(
      map["Customer" := Schema("id", [Relationship("orders", false, "Order")]),
          "Order" := Schema("id", [Relationship("customer", true, "Customer")])],
      map["Customer" := [Entry(customer, map["id" := customer])],
          "Order" := [Entry(a, map["id" := order, "customer" := customer]), Entry(b, map["id" := order, "customer" := customer])]])
  }

  // ----- dictionaries of rows seen -----

  lemma KeyDecides(t: Table, a: Entry<Row>, b: Entry<Row>)
    requires Keyed(t) && a in t && b in t && a.pk == b.pk
    ensures a == b
  {
  }

  /** A dictionary of stored entries, each under its key of this kind. */
  ghost predicate DictBy(seen: Dict<Entry<Row>>, t: Table, key: Entry<Row> -> Value) {
    && (forall i :: 0 <= i < |seen| ==> seen[i].row in t && seen[i].pk == key(seen[i].row))
    && (forall i, j :: 0 <= i < j < |seen| ==> seen[i].pk != seen[j].pk)
  }

  function Entries(seen: Dict<Entry<Row>>): (r: Table)
    ensures |r| == |seen| && forall i :: 0 <= i < |r| ==> r[i] == seen[i].row
  {
    seq(|seen|, i requires 0 <= i < |seen| => seen[i].row)
  }

  /** Storing an entry drops the one with the same key. */
  lemma PutBy(seen: Dict<Entry<Row>>, t: Table, key: Entry<Row> -> Value, e: Entry<Row>)
    requires DictBy(seen, t, key) && e in t
    ensures var after := Put(seen, key(e), e);
            && DictBy(after, t, key)
            && forall x :: x in Entries(after) <==> x == e || (x in Entries(seen) && key(x) != key(e))
  {
    var after := Put(seen, key(e), e);
    var i := Position(seen, key(e));
    assert i < |seen| ==> after == seen[i := Entry(key(e), e)];
    assert i == |seen| ==> after == seen + [Entry(key(e), e)];
    assert after[i].row == e && Entries(after)[i] == e;
    forall x ensures x in Entries(after) <==> x == e || (x in Entries(seen) && key(x) != key(e)) {
      if x in Entries(after) && x != e {
        var k :| 0 <= k < |after| && Entries(after)[k] == x;
        assert k != i && after[k] == seen[k];
        assert Entries(seen)[k] == x;
      }
      if x in Entries(seen) && key(x) != key(e) {
        var k :| 0 <= k < |seen| && Entries(seen)[k] == x;
        assert k != i && after[k] == seen[k] && Entries(after)[k] == x;
      }
    }
  }

  /** No entry occurs twice. */
  lemma EntriesKeyed(seen: Dict<Entry<Row>>, t: Table, key: Entry<Row> -> Value)
    requires DictBy(seen, t, key) && Keyed(t)
    ensures Keyed(Entries(seen))
  {
    forall i, j | 0 <= i < j < |seen| ensures Entries(seen)[i].pk != Entries(seen)[j].pk {
      if seen[i].row.pk == seen[j].row.pk {
        KeyDecides(t, seen[i].row, seen[j].row);
      }
    }
  }

  ghost predicate LinkedFromAny(w: World, model: string, r: Relationship, rows: Table, e: Entry<Row>) {
    exists k :: 0 <= k < |rows| && Linked(w, model, r, rows[k].row, e)
  }

  lemma FoundByKey(t: Table, pk: Value)
    ensures Holds(t, pk) ==> t[Position(t, pk)] in t && t[Position(t, pk)].pk == pk
    ensures !Holds(t, pk) ==> forall e :: e in t ==> e.pk != pk
  {
  }

  // ----- the order of what is found -----

  ghost predicate OrderedBy(list: Table, rank: Entry<Row> -> nat) {
    forall i, j :: 0 <= i < j < |list| ==> rank(list[i]) < rank(list[j])
  }

  /** Storing an entry keeps the order, if the entry it takes the place of has its rank and a new one comes
      after all others. */
  lemma PutKeepsOrder(seen: Dict<Entry<Row>>, t: Table, key: Entry<Row> -> Value, e: Entry<Row>, rank: Entry<Row> -> nat)
    requires DictBy(seen, t, key) && OrderedBy(Entries(seen), rank)
    requires forall x :: x in Entries(seen) ==> if key(x) == key(e) then rank(x) == rank(e) else true
    requires (forall x :: x in Entries(seen) ==> key(x) != key(e)) ==> forall x :: x in Entries(seen) ==> rank(x) < rank(e)
    ensures OrderedBy(Entries(Put(seen, key(e), e)), rank)
  {
    var after := Put(seen, key(e), e);
    var i := Position(seen, key(e));
    if i < |seen| {
      assert Entries(seen)[i] in Entries(seen);
      assert forall j :: 0 <= j < |seen| ==> rank(Entries(after)[j]) == rank(Entries(seen)[j]);
    } else {
      forall x | x in Entries(seen) ensures key(x) != key(e) {
        var k :| 0 <= k < |seen| && Entries(seen)[k] == x;
      }
      assert Entries(after) == Entries(seen) + [e];
      forall j | 0 <= j < |seen| ensures rank(Entries(after)[j]) < rank(e) {
        assert Entries(after)[j] == Entries(seen)[j] && Entries(seen)[j] in Entries(seen);
      }
    }
  }

  /** The first of the rows that is related to the entry. */
  ghost function FirstSource(w: World, model: string, r: Relationship, rows: Table, e: Entry<Row>): (i: nat)
    ensures i <= |rows| && (i < |rows| ==> Linked(w, model, r, rows[i].row, e))
    ensures forall k :: 0 <= k < i ==> !Linked(w, model, r, rows[k].row, e)
  {
    if rows == [] || Linked(w, model, r, rows[0].row, e) then 0 else 1 + FirstSource(w, model, r, rows[1..], e)
  }

  ghost function BySource(w: World, model: string, r: Relationship, rows: Table): Entry<Row> -> nat {
    (e: Entry<Row>) => FirstSource(w, model, r, rows, e)
  }

  /** Being linked from one of the first rows is having the first source among them. */
  lemma SourceWithin(w: World, model: string, r: Relationship, rows: Table, i: nat, e: Entry<Row>)
    requires i <= |rows|
    ensures LinkedFromAny(w, model, r, rows[..i], e) <==> FirstSource(w, model, r, rows, e) < i
  {
    hide Linked;
    var k := FirstSource(w, model, r, rows, e);
    if k < i {
      assert rows[..i][k] == rows[k];
    }
  }

  method FollowLink(w: World, model: string, r: Relationship, rows: Table) returns (found: Table)
    requires Sound(w) && r.link
    ensures Keyed(found)
    ensures forall e :: e in found <==> e in TableOf(w, r.target) && LinkedFromAny(w, model, r, rows, e)
    ensures OrderedBy(found, BySource(w, model, r, rows))
  {
    hide Keyed, Linked, OrderedBy;
    var t := TableOf(w, r.target);
    var seen: Dict<Entry<Row>> := [];
    ghost var key := (e: Entry<Row>) => e.pk;
    ghost var rank := BySource(w, model, r, rows);
    NothingOrdered(rank);
    for i := 0 to |rows|
      invariant DictBy(seen, t, key)
      invariant OrderedBy(Entries(seen), rank)
      invariant forall e :: e in Entries(seen) <==> e in t && LinkedFromAny(w, model, r, rows[..i], e)
    {
      var ref := FieldOf(rows[i].row, r.name);
      FoundByKey(t, ref);
      OneMoreSource(w, model, r, rows, i);
      LinkIsKey(w, model, r, rows[i].row);
      var k := Position(t, ref);
      if k < |t| {
        PutBy(seen, t, key, t[k]);
        OnlyOneTarget(t, t[k]);
        LaterSource(w, model, r, rows, i, seen, t, k);
        PutKeepsOrder(seen, t, key, t[k], rank);
        seen := Put(seen, ref, t[k]);
      }
    }
    assert rows[..|rows|] == rows;
    EntriesKeyed(seen, t, key);
    found := Entries(seen);
  }

  lemma NothingOrdered(rank: Entry<Row> -> nat)
    ensures OrderedBy([], rank)
  {
  }

  /** An entry met for the first time has a later source than those seen. */
  lemma LaterSource(w: World, model: string, r: Relationship, rows: Table, i: nat, seen: Dict<Entry<Row>>, t: Table, k: nat)
    requires i < |rows| && k < |t| && Keyed(t) && Linked(w, model, r, rows[i].row, t[k])
    requires forall e :: e in Entries(seen) <==> e in t && LinkedFromAny(w, model, r, rows[..i], e)
    ensures forall x :: x in Entries(seen) && x.pk == t[k].pk ==> x == t[k]
    ensures (forall x :: x in Entries(seen) ==> x.pk != t[k].pk) ==>
      forall x :: x in Entries(seen) ==> FirstSource(w, model, r, rows, x) < FirstSource(w, model, r, rows, t[k])
  {
    hide Linked, LinkedFromAny;
    OnlyOneTarget(t, t[k]);
    assert t[k] in t;
    SourceWithin(w, model, r, rows, i, t[k]);
    forall x | x in Entries(seen) ensures FirstSource(w, model, r, rows, x) < i {
      SourceWithin(w, model, r, rows, i, x);
    }
  }

  lemma LinkIsKey(w: World, model: string, r: Relationship, row: Row)
    requires r.link
    ensures forall e :: Linked(w, model, r, row, e) <==> FieldOf(row, r.name) == e.pk
  {
  }

  lemma OnlyOneTarget(t: Table, e: Entry<Row>)
    requires Keyed(t) && e in t
    ensures forall s :: s in t && s.pk == e.pk ==> s == e
  {
    forall s | s in t && s.pk == e.pk ensures s == e {
      KeyDecides(t, s, e);
    }
  }

  lemma OneMoreSource(w: World, model: string, r: Relationship, rows: Table, i: nat)
    requires i < |rows|
    ensures forall e :: LinkedFromAny(w, model, r, rows[..i + 1], e) <==>
      LinkedFromAny(w, model, r, rows[..i], e) || Linked(w, model, r, rows[i].row, e)
  {
    forall e
      ensures LinkedFromAny(w, model, r, rows[..i + 1], e) <==>
        LinkedFromAny(w, model, r, rows[..i], e) || Linked(w, model, r, rows[i].row, e)
    {
      if Linked(w, model, r, rows[i].row, e) {
        assert rows[..i + 1][i] == rows[i];
      }
      if LinkedFromAny(w, model, r, rows[..i], e) {
        var k :| 0 <= k < i && Linked(w, model, r, rows[..i][k].row, e);
        assert rows[..i + 1][k] == rows[k];
      }
    }
  }

  /** Among the first `n` entries a later one that links back too has the key field of entry `k`. */
  ghost predicate Shadowed(w: World, model: string, r: Relationship, rows: Table, n: nat, k: nat)
    requires k < n <= |TableOf(w, r.target)|
  {
    var t := TableOf(w, r.target);
    exists m :: k < m < n && LinkedFromAny(w, model, r, rows, t[m]) && KeyField(w, r.target, t[m]) == KeyField(w, r.target, t[k])
  }

  /** The first of the entries that links back too and has the key field. */
  ghost function FirstPlace(w: World, model: string, r: Relationship, rows: Table, t: Table, key: Value): (i: nat)
    ensures i <= |t| && (i < |t| ==> LinkedFromAny(w, model, r, rows, t[i]) && KeyField(w, r.target, t[i]) == key)
    ensures forall k :: 0 <= k < i ==> !(LinkedFromAny(w, model, r, rows, t[k]) && KeyField(w, r.target, t[k]) == key)
  {
    if t == [] || (LinkedFromAny(w, model, r, rows, t[0]) && KeyField(w, r.target, t[0]) == key) then 0
    else 1 + FirstPlace(w, model, r, rows, t[1..], key)
  }

  ghost function ByPlace(w: World, model: string, r: Relationship, rows: Table): Entry<Row> -> nat {
    (e: Entry<Row>) => FirstPlace(w, model, r, rows, TableOf(w, r.target), KeyField(w, r.target, e))
  }

  /** Of the target rows that link back to some current row, the last for each key field, in the place of the
      first. */
  method FollowBack(w: World, model: string, r: Relationship, rows: Table) returns (found: Table)
    requires Sound(w) && !r.link
    ensures Keyed(found) && forall e :: e in found ==> e in TableOf(w, r.target)
    ensures
      var t := TableOf(w, r.target);
      forall k :: 0 <= k < |t| ==>
        (t[k] in found <==> LinkedFromAny(w, model, r, rows, t[k]) && !Shadowed(w, model, r, rows, |t|, k))
    ensures OrderedBy(found, ByPlace(w, model, r, rows))
  {
    hide Keyed, LinkedFromAny, Shadowed, DictBy, Put, OrderedBy, BackSeen, ByPlace;
    found := [];
    var back := BackLink(SchemaOf(w, r.target).relationships, model);
    var t := TableOf(w, r.target);
    if back.None? {
      NoBackLink(w, model, r, rows);
      EmptyKeyed();
      NothingOrdered(ByPlace(w, model, r, rows));
      return;
    }
    var starts := set k | 0 <= k < |rows| :: FieldOf(rows[k].row, SchemaOf(w, model).key);
    var seen: Dict<Entry<Row>> := [];
    ghost var key := ByKeyField(w, r.target);
    NothingSeen(w, model, r, rows);
    for i := 0 to |t|
      invariant BackSeen(w, model, r, rows, i, seen)
    {
      StartsAreSources(w, model, r, rows, starts, t[i]);
      if FieldOf(t[i].row, back.value.name) in starts {
        SeenMore(w, model, r, rows, i, seen);
        seen := Put(seen, FieldOf(t[i].row, SchemaOf(w, r.target).key), t[i]);
      } else {
        SeenNoMore(w, model, r, rows, i, seen);
      }
    }
    SeenKeyed(w, model, r, rows, seen);
    found := Entries(seen);
  }

  ghost function ByKeyField(w: World, target: string): Entry<Row> -> Value {
    (e: Entry<Row>) => KeyField(w, target, e)
  }

  /** What has been seen of the first entries: those that link back and are not shadowed. */
  ghost predicate BackMembers(w: World, model: string, r: Relationship, rows: Table, i: nat, list: Table) {
    var t := TableOf(w, r.target);
    && i <= |t| && (forall x :: x in list ==> x in t[..i] && LinkedFromAny(w, model, r, rows, x))
    && (forall k :: 0 <= k < i ==>
         (t[k] in list <==> LinkedFromAny(w, model, r, rows, t[k]) && !Shadowed(w, model, r, rows, i, k)))
    && (forall k :: 0 <= k < i && LinkedFromAny(w, model, r, rows, t[k]) ==> KeyAmong(w, r.target, list, t[k]))
  }

  ghost predicate KeyAmong(w: World, target: string, list: Table, e: Entry<Row>) {
    exists x :: x in list && KeyField(w, target, x) == KeyField(w, target, e)
  }

  /** They are held by their key fields, each in the place of the first with its key field. */
  ghost predicate BackOrder(w: World, model: string, r: Relationship, rows: Table, seen: Dict<Entry<Row>>) {
    DictBy(seen, TableOf(w, r.target), ByKeyField(w, r.target)) && OrderedBy(Entries(seen), ByPlace(w, model, r, rows))
  }

  ghost predicate BackSeen(w: World, model: string, r: Relationship, rows: Table, i: nat, seen: Dict<Entry<Row>>) {
    BackOrder(w, model, r, rows, seen) && BackMembers(w, model, r, rows, i, Entries(seen))
  }

  lemma NothingSeen(w: World, model: string, r: Relationship, rows: Table)
    ensures BackSeen(w, model, r, rows, 0, [])
  {
  }

  lemma SeenKeyed(w: World, model: string, r: Relationship, rows: Table, seen: Dict<Entry<Row>>)
    requires Sound(w)
    requires BackSeen(w, model, r, rows, |TableOf(w, r.target)|, seen)
    ensures
      var t := TableOf(w, r.target);
      && Keyed(Entries(seen)) && OrderedBy(Entries(seen), ByPlace(w, model, r, rows)) && (forall e :: e in Entries(seen) ==> e in t)
      && forall k :: 0 <= k < |t| ==>
           (t[k] in Entries(seen) <==> LinkedFromAny(w, model, r, rows, t[k]) && !Shadowed(w, model, r, rows, |t|, k))
  {
    hide LinkedFromAny, Shadowed, OrderedBy, KeyField, KeyAmong;
    var t := TableOf(w, r.target);
    assert t[..|t|] == t;
    EntriesKeyed(seen, t, ByKeyField(w, r.target));
  }

  lemma SeenNoMore(w: World, model: string, r: Relationship, rows: Table, i: nat, seen: Dict<Entry<Row>>)
    requires Sound(w) && i < |TableOf(w, r.target)| && BackSeen(w, model, r, rows, i, seen)
    requires !LinkedFromAny(w, model, r, rows, TableOf(w, r.target)[i])
    ensures BackSeen(w, model, r, rows, i + 1, seen)
  {
    hide LinkedFromAny, Shadowed, BackOrder, KeyField, KeyAmong;
    var t := TableOf(w, r.target);
    assert t[..i + 1] == t[..i] + [t[i]];
    OneMoreShadow(w, model, r, rows, i);
    NotBefore(t, i);
  }

  lemma SeenMore(w: World, model: string, r: Relationship, rows: Table, i: nat, seen: Dict<Entry<Row>>)
    requires Sound(w) && i < |TableOf(w, r.target)| && BackSeen(w, model, r, rows, i, seen)
    requires LinkedFromAny(w, model, r, rows, TableOf(w, r.target)[i])
    ensures BackSeen(w, model, r, rows, i + 1, Put(seen, KeyField(w, r.target, TableOf(w, r.target)[i]), TableOf(w, r.target)[i]))
  {
    hide BackMembers, LinkedFromAny, OrderedBy, KeyField, Put, ByPlace, DictBy;
    var t, key := TableOf(w, r.target), ByKeyField(w, r.target);
    PutBy(seen, t, key, t[i]);
    LaterPlace(w, model, r, rows, i, seen);
    PutKeepsOrder(seen, t, key, t[i], ByPlace(w, model, r, rows));
    SeenMembers(w, model, r, rows, i, Entries(seen), Entries(Put(seen, key(t[i]), t[i])));
  }

  lemma SeenMembers(w: World, model: string, r: Relationship, rows: Table, i: nat, list: Table, after: Table)
    requires Sound(w) && i < |TableOf(w, r.target)| && BackMembers(w, model, r, rows, i, list)
    requires LinkedFromAny(w, model, r, rows, TableOf(w, r.target)[i])
    requires
      var t := TableOf(w, r.target);
      forall x :: x in after <==> x == t[i] || (x in list && KeyField(w, r.target, x) != KeyField(w, r.target, t[i]))
    ensures BackMembers(w, model, r, rows, i + 1, after)
  {
    hide LinkedFromAny, Shadowed, KeyField, KeyAmong;
    var t := TableOf(w, r.target);
    assert t[..i + 1] == t[..i] + [t[i]];
    OneMoreShadow(w, model, r, rows, i);
    NotBefore(t, i);
    forall k | 0 <= k < i + 1 && LinkedFromAny(w, model, r, rows, t[k]) ensures KeyAmong(w, r.target, after, t[k]) {
      KeyStays(w, r.target, list, after, t[i], t[k]);
    }
  }

  lemma KeyStays(w: World, target: string, list: Table, after: Table, e: Entry<Row>, x: Entry<Row>)
    requires forall y :: y in after <==> y == e || (y in list && KeyField(w, target, y) != KeyField(w, target, e))
    requires x == e || KeyAmong(w, target, list, x)
    ensures KeyAmong(w, target, after, x)
  {
    hide KeyField;
    assert e in after;
    if x != e {
      var y :| y in list && KeyField(w, target, y) == KeyField(w, target, x);
      assert y in after || KeyField(w, target, y) == KeyField(w, target, e);
    }
  }

  lemma EarlyPlace(w: World, model: string, r: Relationship, rows: Table, k: nat)
    requires k < |TableOf(w, r.target)| && LinkedFromAny(w, model, r, rows, TableOf(w, r.target)[k])
    ensures ByPlace(w, model, r, rows)(TableOf(w, r.target)[k]) <= k
  {
    hide LinkedFromAny, KeyField;
  }

  lemma LatePlace(w: World, model: string, r: Relationship, rows: Table, i: nat)
    requires i < |TableOf(w, r.target)|
    requires
      var t := TableOf(w, r.target);
      forall k :: 0 <= k < i && LinkedFromAny(w, model, r, rows, t[k]) ==> KeyField(w, r.target, t[k]) != KeyField(w, r.target, t[i])
    ensures ByPlace(w, model, r, rows)(TableOf(w, r.target)[i]) >= i
  {
    hide LinkedFromAny, KeyField;
  }

  lemma SamePlace(w: World, model: string, r: Relationship, rows: Table, a: Entry<Row>, b: Entry<Row>)
    requires KeyField(w, r.target, a) == KeyField(w, r.target, b)
    ensures ByPlace(w, model, r, rows)(a) == ByPlace(w, model, r, rows)(b)
  {
  }

  /** An entry with a new key field has a later place than those seen. */
  lemma LaterPlace(w: World, model: string, r: Relationship, rows: Table, i: nat, seen: Dict<Entry<Row>>)
    requires i < |TableOf(w, r.target)| && BackSeen(w, model, r, rows, i, seen)
    ensures
      var t, rank := TableOf(w, r.target), ByPlace(w, model, r, rows);
      && (forall x :: x in Entries(seen) && KeyField(w, r.target, x) == KeyField(w, r.target, t[i]) ==> rank(x) == rank(t[i]))
      && ((forall x :: x in Entries(seen) ==> KeyField(w, r.target, x) != KeyField(w, r.target, t[i])) ==>
           forall x :: x in Entries(seen) ==> rank(x) < rank(t[i]))
  {
    hide LinkedFromAny, KeyField, ByPlace, Shadowed, BackOrder;
    var t, rank := TableOf(w, r.target), ByPlace(w, model, r, rows);
    forall x | x in Entries(seen) && KeyField(w, r.target, x) == KeyField(w, r.target, t[i]) ensures rank(x) == rank(t[i]) {
      SamePlace(w, model, r, rows, x, t[i]);
    }
    if forall x :: x in Entries(seen) ==> KeyField(w, r.target, x) != KeyField(w, r.target, t[i]) {
      LatePlace(w, model, r, rows, i);
      forall x | x in Entries(seen) ensures rank(x) < i {
        var k :| 0 <= k < i && t[..i][k] == x;
        EarlyPlace(w, model, r, rows, k);
      }
    }
  }

  lemma EmptyKeyed()
    ensures Keyed<Row>([])
  {
  }

  lemma NoBackLink(w: World, model: string, r: Relationship, rows: Table)
    requires !r.link && BackLink(SchemaOf(w, r.target).relationships, model).None?
    ensures forall e :: !LinkedFromAny(w, model, r, rows, e)
  {
  }

  lemma NotBefore(t: Table, i: nat)
    requires Keyed(t) && i < |t|
    ensures t[i] !in t[..i] && forall k :: 0 <= k < i ==> t[k] != t[i]
  {
  }

  lemma OneMoreShadow(w: World, model: string, r: Relationship, rows: Table, i: nat)
    requires i < |TableOf(w, r.target)|
    ensures
      var t := TableOf(w, r.target);
      && !Shadowed(w, model, r, rows, i + 1, i)
      && forall k :: 0 <= k < i ==>
           (Shadowed(w, model, r, rows, i + 1, k) <==>
              Shadowed(w, model, r, rows, i, k) || (LinkedFromAny(w, model, r, rows, t[i]) && KeyField(w, r.target, t[i]) == KeyField(w, r.target, t[k])))
  {
    hide LinkedFromAny;
  }

  lemma StartsAreSources(w: World, model: string, r: Relationship, rows: Table, starts: set<Value>, e: Entry<Row>)
    requires !r.link && starts == set k | 0 <= k < |rows| :: FieldOf(rows[k].row, SchemaOf(w, model).key)
    ensures
      var back := BackLink(SchemaOf(w, r.target).relationships, model);
      back.Some? ==> (FieldOf(e.row, back.value.name) in starts <==> LinkedFromAny(w, model, r, rows, e))
  {
  }

  /** The filters fail to evaluate on some row. */
  ghost predicate Faults(t: Table, filters: seq<Pred>) {
    exists e :: e in t && MatchesAll(e.row, filters).Err?
  }

  /** The place of an entry in a table. */
  ghost function InTable(t: Table): Entry<Row> -> nat {
    (e: Entry<Row>) => Position(t, e.pk)
  }

  lemma PlacesAre(t: Table)
    requires Keyed(t)
    ensures forall k :: 0 <= k < |t| ==> InTable(t)(t[k]) == k
  {
  }

  method Filter(t: Table, filters: seq<Pred>) returns (r: Result<Table, TraverseError>)
    requires Keyed(t)
    ensures r.Err? <==> Faults(t, filters)
    ensures r.Err? ==> FirstError(t, filters) < |t| && r.error == Fault(MatchesAll(t[FirstError(t, filters)].row, filters).error)
    ensures r.Ok? ==> Keyed(r.value) && forall e :: e in r.value <==> e in t && Matched(e.row, filters)
    ensures r.Ok? ==> OrderedBy(r.value, InTable(t))
  {
    hide KeptOf, Faults;
    var kept: Table := [];
    NothingKept(t, filters);
    for i := 0 to |t|
      invariant i <= FirstError(t, filters) && KeptOf(t, filters, i, kept)
    {
      var hit := MatchesAll(t[i].row, filters);
      if hit.Err? {
        FaultsExactly(t, filters);
        return Err(Fault(hit.error));
      }
      KeepMore(t, filters, i, kept);
      if hit.value {
        kept := kept + [t[i]];
      }
    }
    FaultsExactly(t, filters);
    AllKept(t, filters, kept);
    r := Ok(kept);
  }

  lemma FaultsExactly(t: Table, filters: seq<Pred>)
    ensures Faults(t, filters) <==> FirstError(t, filters) < |t|
  {
    var i := FirstError(t, filters);
    if i < |t| {
      assert t[i] in t;
    } else {
      forall e | e in t ensures MatchesAll(e.row, filters).Ok? {
        var k :| 0 <= k < |t| && t[k] == e;
      }
    }
  }

  lemma NothingKept(t: Table, filters: seq<Pred>)
    ensures KeptOf(t, filters, 0, [])
  {
  }

  lemma AllKept(t: Table, filters: seq<Pred>, kept: Table)
    requires KeptOf(t, filters, |t|, kept)
    ensures Keyed(kept) && (forall e :: e in kept <==> e in t && Matched(e.row, filters)) && OrderedBy(kept, InTable(t))
  {
    assert t[..|t|] == t;
  }

  /** The matching ones of the first entries, in their order. */
  ghost predicate KeptOf(t: Table, filters: seq<Pred>, i: nat, kept: Table) {
    && i <= |t| && Keyed(kept) && (forall e :: e in kept <==> e in t[..i] && Matched(e.row, filters)) && OrderedBy(kept, InTable(t))
  }

  lemma KeepMore(t: Table, filters: seq<Pred>, i: nat, kept: Table)
    requires Keyed(t) && i < |t| && KeptOf(t, filters, i, kept)
    ensures KeptOf(t, filters, i + 1, if Matched(t[i].row, filters) then kept + [t[i]] else kept)
  {
    hide Matched, OrderedBy, Keyed, InTable;
    assert t[..i + 1] == t[..i] + [t[i]];
    if Matched(t[i].row, filters) {
      OneMoreInOrder(t, i, kept);
    }
  }

  lemma OneMoreInOrder(t: Table, i: nat, kept: Table)
    requires Keyed(t) && i < |t| && Keyed(kept) && OrderedBy(kept, InTable(t)) && forall e :: e in kept ==> e in t[..i]
    ensures Keyed(kept + [t[i]]) && OrderedBy(kept + [t[i]], InTable(t))
  {
    PlacesAre(t);
    forall j | 0 <= j < |kept| ensures kept[j].pk != t[i].pk && InTable(t)(kept[j]) < i {
      assert kept[j] in kept;
      var k :| 0 <= k < i && t[k] == kept[j];
    }
  }

  /** What a step from the rows reached so far leads to. */
  lemma {:induction false} OneMoreStep(w: World, model: string, start: seq<Pred>, steps: seq<string>, i: nat, rows: Table)
    requires i < |steps| && ModelAfter(w, model, steps[..i + 1]).Some? && ModelAfter(w, model, steps[..i]).Some?
    requires forall e :: e in rows <==> Reached(w, model, start, steps[..i], e)
    ensures LastModel(w, model, steps[..i + 1]) == ModelAfter(w, model, steps[..i]).value
    ensures
      var r := LastStep(w, model, steps[..i + 1]);
      forall e :: Led(w, model, start, steps[..i + 1], e) <==>
        e in TableOf(w, r.target) && LinkedFromAny(w, LastModel(w, model, steps[..i + 1]), r, rows, e)
  {
    hide Linked, Reached;
    var taken := steps[..i + 1];
    assert taken[..i] == steps[..i];
    var source, r := LastModel(w, model, taken), LastStep(w, model, taken);
    forall e ensures Led(w, model, start, taken, e) <==> e in TableOf(w, r.target) && LinkedFromAny(w, source, r, rows, e) {
      if e in TableOf(w, r.target) && LinkedFromAny(w, source, r, rows, e) {
        var k :| 0 <= k < |rows| && Linked(w, source, r, rows[k].row, e);
        assert rows[k] in rows;
        ReachedIsStored(w, model, start, steps[..i], rows[k]);
      }
    }
  }

  lemma LaterIsBelow(t: Table, k: nat, x: Entry<Row>)
    requires Keyed(t) && k < |t| && Later(t, t[k], x)
    ensures exists m :: k < m < |t| && t[m] == x
  {
    var i, j :| 0 <= i < j < |t| && t[i] == t[k] && t[j] == x;
  }

  lemma BelowIsLater(t: Table, k: nat, m: nat)
    requires k < m < |t|
    ensures Later(t, t[k], t[m])
  {
  }

  /** Following a collection finds the rows that are reached. */
  lemma {:induction false} BackIsReached(w: World, model: string, start: seq<Pred>, steps: seq<string>, rows: Table, found: Table)
    requires Sound(w) && steps != [] && ModelAfter(w, model, steps).Some? && !LastStep(w, model, steps).link
    requires
      var r := LastStep(w, model, steps);
      var t := TableOf(w, r.target);
      && (forall e :: Led(w, model, start, steps, e) <==> e in t && LinkedFromAny(w, LastModel(w, model, steps), r, rows, e))
      && (forall e :: e in found ==> e in t)
      && forall k :: 0 <= k < |t| ==>
           (t[k] in found <==>
              (LinkedFromAny(w, LastModel(w, model, steps), r, rows, t[k])
               && !Shadowed(w, LastModel(w, model, steps), r, rows, |t|, k)))
    ensures forall e :: e in found <==> Reached(w, model, start, steps, e)
  {
    hide LinkedFromAny, Led, Later, KeyField, Keyed;
    var source, r := LastModel(w, model, steps), LastStep(w, model, steps);
    var t := TableOf(w, r.target);
    forall k | 0 <= k < |t| ensures Replaced(w, model, start, steps, t[k]) <==> Shadowed(w, source, r, rows, |t|, k) {
      if Replaced(w, model, start, steps, t[k]) {
        var x :| Led(w, model, start, steps, x) && Later(t, t[k], x) && KeyField(w, r.target, x) == KeyField(w, r.target, t[k]);
        LaterIsBelow(t, k, x);
      }
      if Shadowed(w, source, r, rows, |t|, k) {
        var m :| k < m < |t| && LinkedFromAny(w, source, r, rows, t[m]) && KeyField(w, r.target, t[m]) == KeyField(w, r.target, t[k]);
        assert t[m] in t;
        BelowIsLater(t, k, m);
      }
    }
    forall e ensures e in found <==> Reached(w, model, start, steps, e) {
      if e in t {
        var k :| 0 <= k < |t| && t[k] == e;
      }
    }
  }

  /** The rows reached, in their order: start rows as stored, rows found by a link by the first row that links
      to them, rows found by a collection by the first row stored with their key field. */
  ghost predicate Listed(w: World, model: string, start: seq<Pred>, steps: seq<string>, list: Table)
    requires ModelAfter(w, model, steps).Some?
    decreases |steps|
  {
    && Keyed(list) && (forall e :: e in list <==> Reached(w, model, start, steps, e))
    && if steps == [] then OrderedBy(list, InTable(TableOf(w, model)))
       else
         var source, r := LastModel(w, model, steps), LastStep(w, model, steps);
         exists before :: Listed(w, model, start, steps[..|steps| - 1], before)
           && OrderedBy(list, if r.link then BySource(w, source, r, before) else ByPlace(w, source, r, before))
  }

  lemma FrontOf(a: Table, rank: Entry<Row> -> nat)
    requires a != [] && OrderedBy(a, rank)
    ensures OrderedBy(a[..|a| - 1], rank) && forall e :: e in a[..|a| - 1] <==> e in a && e != a[|a| - 1]
  {
    var n := |a| - 1;
    forall e ensures e in a[..n] <==> e in a && e != a[n] {
      if e in a && e != a[n] {
        var i :| 0 <= i < |a| && a[i] == e;
        assert a[..n][i] == e;
      }
      if e in a[..n] {
        var i :| 0 <= i < n && a[..n][i] == e;
        assert a[i] == e && rank(a[i]) < rank(a[n]);
      }
    }
  }

  lemma SameLast(a: Table, b: Table, rank: Entry<Row> -> nat)
    requires OrderedBy(a, rank) && OrderedBy(b, rank) && (forall e :: e in a <==> e in b) && a != [] && b != []
    ensures a[|a| - 1] == b[|b| - 1]
  {
    var x, y := a[|a| - 1], b[|b| - 1];
    assert x in a && y in b;
    var i :| 0 <= i < |b| && b[i] == x;
    var j :| 0 <= j < |a| && a[j] == y;
    assert i < |b| - 1 ==> rank(x) < rank(y);
    assert j < |a| - 1 ==> rank(y) < rank(x);
  }

  lemma {:induction false} SameList(a: Table, b: Table, rank: Entry<Row> -> nat)
    requires OrderedBy(a, rank) && OrderedBy(b, rank) && forall e :: e in a <==> e in b
    ensures a == b
    decreases |a|
  {
    hide OrderedBy;
    var x, y := if a == [] then None else Some(a[0]), if b == [] then None else Some(b[0]);
    assert (x.Some? ==> x.value in a) && (y.Some? ==> y.value in b);
    if a != [] {
      var n, m := |a| - 1, |b| - 1;
      SameLast(a, b, rank);
      FrontOf(a, rank);
      FrontOf(b, rank);
      forall e ensures e in a[..n] <==> e in b[..m] {
        assert e in a[..n] <==> e in a && e != a[n];
        assert e in b[..m] <==> e in b && e != b[m];
      }
      SameList(a[..n], b[..m], rank);
      assert a == a[..n] + [a[n]] && b == b[..m] + [b[m]];
    }
  }

  /** The list of the rows reached is determined. */
  lemma {:induction false} ListIsDetermined(w: World, model: string, start: seq<Pred>, steps: seq<string>, a: Table, b: Table)
    requires ModelAfter(w, model, steps).Some?
    requires Listed(w, model, start, steps, a) && Listed(w, model, start, steps, b)
    ensures a == b
    decreases |steps|
  {
    hide OrderedBy, Keyed, Reached;
    if steps == [] {
      SameList(a, b, InTable(TableOf(w, model)));
    } else {
      var source, r, n := LastModel(w, model, steps), LastStep(w, model, steps), |steps| - 1;
      var before :| Listed(w, model, start, steps[..n], before)
        && OrderedBy(a, if r.link then BySource(w, source, r, before) else ByPlace(w, source, r, before));
      var other :| Listed(w, model, start, steps[..n], other)
        && OrderedBy(b, if r.link then BySource(w, source, r, other) else ByPlace(w, source, r, other));
      ListIsDetermined(w, model, start, steps[..n], before, other);
      SameList(a, b, if r.link then BySource(w, source, r, before) else ByPlace(w, source, r, before));
    }
  }

  lemma {:induction false} OneMoreList(w: World, model: string, start: seq<Pred>, steps: seq<string>, i: nat, rows: Table, found: Table)
    requires i < |steps| && ModelAfter(w, model, steps[..i + 1]).Some? && ModelAfter(w, model, steps[..i]).Some?
    requires Listed(w, model, start, steps[..i], rows) && Keyed(found)
    requires forall e :: e in found <==> Reached(w, model, start, steps[..i + 1], e)
    requires
      var source, r := LastModel(w, model, steps[..i + 1]), LastStep(w, model, steps[..i + 1]);
      OrderedBy(found, if r.link then BySource(w, source, r, rows) else ByPlace(w, source, r, rows))
    ensures Listed(w, model, start, steps[..i + 1], found)
  {
    hide OrderedBy, Keyed, Reached;
    assert steps[..i + 1][..i] == steps[..i];
  }

  /** A step that names no relationship ends the path for good. */
  lemma {:induction false} NoWayOn(w: World, model: string, steps: seq<string>, i: nat)
    requires i <= |steps| && ModelAfter(w, model, steps[..i]).None?
    ensures ModelAfter(w, model, steps).None?
    decreases |steps|
  {
    if i == |steps| {
      assert steps[..i] == steps;
    } else {
      var n := |steps| - 1;
      assert steps[..n][..i] == steps[..i];
      NoWayOn(w, model, steps[..n], i);
    }
  }

  method Walk(w: World, model: string, start: seq<Pred>, steps: seq<string>, starts: Table)
    returns (r: Result<Table, TraverseError>)
    requires Sound(w) && Keyed(starts)
    requires forall e :: e in starts <==> e in TableOf(w, model) && Matched(e.row, start)
    requires OrderedBy(starts, InTable(TableOf(w, model)))
    ensures r.Ok? <==> ModelAfter(w, model, steps).Some?
    ensures r.Err? ==> r.error == NoRelationship
    ensures r.Ok? ==> Keyed(r.value) && forall e :: e in r.value <==> Reached(w, model, start, steps, e)
    ensures r.Ok? ==> Listed(w, model, start, steps, r.value)
  {
    hide OrderedBy, Keyed;
    var rows, current := starts, model;
    for i := 0 to |steps|
      invariant ModelAfter(w, model, steps[..i]) == Some(current)
      invariant Keyed(rows) && (forall e :: e in rows <==> Reached(w, model, start, steps[..i], e))
      invariant Listed(w, model, start, steps[..i], rows)
    {
      assert steps[..i + 1][..i] == steps[..i];
      var relationship := Named(SchemaOf(w, current).relationships, steps[i]);
      if relationship.None? {
        NoWayOn(w, model, steps, i + 1);
        return Err(NoRelationship);
      }
      OneMoreStep(w, model, start, steps, i, rows);
      var found;
      if relationship.value.link {
        found := FollowLink(w, current, relationship.value, rows);
      } else {
        found := FollowBack(w, current, relationship.value, rows);
        BackIsReached(w, model, start, steps[..i + 1], rows, found);
      }
      OneMoreList(w, model, start, steps, i, rows, found);
      rows, current := found, relationship.value.target;
    }
    assert steps[..|steps|] == steps;
    r := Ok(rows);
  }

  ghost predicate ReachesAFault(w: World, model: string, start: seq<Pred>, steps: seq<string>, filters: seq<Pred>)
    requires ModelAfter(w, model, steps).Some?
  {
    exists e :: Reached(w, model, start, steps, e) && MatchesAll(e.row, filters).Err?
  }

  /** A traversal returns, before its limit and in the order of the list, exactly the stored rows that satisfy
      the final filters and to which the steps lead from a row satisfying the start filters, each of them once. It fails
      exactly when the start filters fail on a stored row, when there are too many steps, when a step
      names no relationship of the model it is taken from, or when the final filters fail on a row
      reached, the first of these in this order. */
  method Traverse(w: World, model: string, start: seq<Pred>, steps: seq<string>, maxDepth: nat, filters: seq<Pred>,
                  limit: Option<nat>)
    returns (r: Result<seq<Row>, TraverseError>, ghost all: Table)
    requires Sound(w)
    ensures
      var t := TableOf(w, model);
      if Faults(t, start) then FirstError(t, start) < |t| && r == Err(Fault(MatchesAll(t[FirstError(t, start)].row, start).error))
      else if |steps| > maxDepth then r == Err(TooDeep)
      else if ModelAfter(w, model, steps).None? then r == Err(NoRelationship)
      else if ReachesAFault(w, model, start, steps, filters) then r.Err? && r.error.Fault?
      else r.Ok?
    ensures r.Ok? ==> Keyed(all) && forall e :: e in all <==> Reached(w, model, start, steps, e) && Matched(e.row, filters)
    ensures r.Ok? ==> exists list :: Listed(w, model, start, steps, list) && OrderedBy(all, InTable(list))
    ensures r.Ok? ==> r.value == if limit.Some? && limit.value < |all| then RowsOf(all)[..limit.value] else RowsOf(all)
  {
    all := [];
    var starts := Filter(TableOf(w, model), start);
    if starts.Err? {
      return Err(starts.error), [];
    }
    if |steps| > maxDepth {
      return Err(TooDeep), [];
    }
    var walked := Walk(w, model, start, steps, starts.value);
    if walked.Err? {
      return Err(walked.error), [];
    }
    var kept := Filter(walked.value, filters);
    if kept.Err? {
      return Err(kept.error), [];
    }
    all := kept.value;
    var rows := RowsOf(kept.value);
    r := Ok(if limit.Some? && limit.value < |rows| then rows[..limit.value] else rows);
  }
}
