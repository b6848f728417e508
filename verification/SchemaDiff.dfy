/**
  Diffing two schemas into a migration plan: exactly which changes it holds and in which order, when it is
  empty, how it reverses, and what a plan without destructive changes guarantees to existing rows and to
  the tables they form.
 */
module SchemaDiff {
  import opened Values
  import opened Sorting

  /** The attributes of a field that a plan tracks, and whether it has a default. */
  datatype Field = Field(kind: string, vectorDim: Option<int>, nullable: bool, index: bool, unique: bool, primaryKey: bool,
                         hasDefault: bool)

  datatype Relationship = Relationship(target: string, kind: string)

  datatype Model = Model(fields: map<string, Field>, relationships: map<string, Relationship>)

  type Schema = map<string, Model>

  datatype Kind =
    | AddModel | DropModel | AddField | AlterField | DropField | AddIndex | DropIndex
    | AddRelationship | AlterRelationship | DropRelationship

  datatype Detail =
    | Whole | NewField(required: bool) | TypeOf(before: string, after: string)
    | DimensionOf(from: Option<int>, to: Option<int>) | NotNull | Nullable | Attribute(name: string)
    | Ends(source: Relationship, destination: Relationship)

  datatype Change = Change(kind: Kind, model: string, target: string, detail: Detail, destructive: bool)

  // ----- names in order -----

  ghost predicate LeastOf(s: set<string>, m: string) {
    m in s && forall y :: y in s ==> StrLeq(m, y)
  }

  lemma {:induction false} LeastExists(s: set<string>)
    requires s != {}
    ensures exists m :: LeastOf(s, m)
    decreases |s|
  {
    var x :| x in s;
    StrLeqTotal(x, x);
    if s == {x} {
      assert LeastOf(s, x);
    } else {
      LeastExists(s - {x});
      var y :| LeastOf(s - {x}, y);
      StrLeqTotal(x, y);
      var m := if StrLeq(x, y) then x else y;
      forall z | z in s ensures StrLeq(m, z) {
        if z != x {
          StrLeqTransitive(m, y, z);
        }
      }
      assert LeastOf(s, m);
    }
  }

  ghost function Least(s: set<string>): (m: string)
    requires s != {}
    ensures LeastOf(s, m)
  {
    LeastExists(s);
    var m :| LeastOf(s, m);
    m
  }

  /** `sorted(s)` */
  ghost function Names(s: set<string>): seq<string>
    decreases |s|
  {
    if s == {} then [] else [Least(s)] + Names(s - {Least(s)})
  }

  lemma {:induction false} NamesHold(s: set<string>)
    ensures forall n :: n in Names(s) <==> n in s
    decreases |s|
  {
    if s != {} {
      NamesHold(s - {Least(s)});
    }
  }

  method SortedNames(s: set<string>) returns (names: seq<string>)
    ensures names == Names(s)
  {
    names := [];
    var left := s;
    while left != {}
      invariant names + Names(left) == Names(s)
    {
      assert LeastOf(left, Least(left));
      var m :| m in left && forall y :: y in left ==> StrLeq(m, y);
      StrLeqAntisymmetric(m, Least(left));
      assert names + ([m] + Names(left - {m})) == names + [m] + Names(left - {m});
      names := names + [m];
      left := left - {m};
    }
    assert names + [] == names;
  }

  // ----- the changes of one field -----

  function When(c: bool, change: Change): seq<Change> {
    if c then [change] else []
  }

  function AttributeChange(model: string, name: string, attribute: string, before: bool, after: bool): seq<Change> {
    if before == after then []
    else if after then [Change(AddIndex, model, name, Attribute(attribute), false)]
    else [Change(DropIndex, model, name, Attribute(attribute), true)]
  }

  function NullabilityChange(model: string, name: string, before: bool, after: bool): seq<Change> {
    if before && !after then [Change(AlterField, model, name, NotNull, true)]
    else When(!before && after, Change(AlterField, model, name, Nullable, false))
  }

  function Six(a: seq<Change>, b: seq<Change>, c: seq<Change>, d: seq<Change>, e: seq<Change>, f: seq<Change>): seq<Change> {
    a + b + c + d + e + f
  }

  function FieldChanges(model: string, name: string, was: Field, now: Field): seq<Change> {
    Six(When(was.kind != now.kind, Change(AlterField, model, name, TypeOf(was.kind, now.kind), true)),
        When(was.vectorDim != now.vectorDim, Change(AlterField, model, name, DimensionOf(was.vectorDim, now.vectorDim), true)),
        NullabilityChange(model, name, was.nullable, now.nullable),
        AttributeChange(model, name, "index", was.index, now.index),
        AttributeChange(model, name, "unique", was.unique, now.unique),
        AttributeChange(model, name, "primary_key", was.primaryKey, now.primaryKey))
  }

  // ----- the changes of one name, of a model, of a schema -----

  function FieldDelta(model: string, n: string, was: Model, now: Model): seq<Change> {
    if n in was.fields && n in now.fields then FieldChanges(model, n, was.fields[n], now.fields[n])
    else if n in now.fields then
      var required := !now.fields[n].nullable && !now.fields[n].hasDefault;
      [Change(AddField, model, n, NewField(required), required)]
    else if n in was.fields then [Change(DropField, model, n, Whole, true)]
    else []
  }

  function RelationshipDelta(model: string, n: string, was: Model, now: Model): seq<Change> {
    if n in was.relationships && n in now.relationships then
      var (before, after) := (was.relationships[n], now.relationships[n]);
      When(before != after, Change(AlterRelationship, model, n, Ends(before, after), true))
    else if n in now.relationships then [Change(AddRelationship, model, n, Whole, false)]
    else if n in was.relationships then [Change(DropRelationship, model, n, Whole, true)]
    else []
  }

  function FlatMap(names: seq<string>, delta: string -> seq<Change>): seq<Change> {
    if names == [] then [] else delta(names[0]) + FlatMap(names[1..], delta)
  }

  /** Additions, then removals, then what both have, each by name. */
  ghost function Deltas(was: set<string>, now: set<string>, delta: string -> seq<Change>): seq<Change> {
    FlatMap(Names(now - was), delta) + FlatMap(Names(was - now), delta) + FlatMap(Names(was * now), delta)
  }

  function FieldDeltas(model: string, was: Model, now: Model): string -> seq<Change> {
    n => FieldDelta(model, n, was, now)
  }

  function RelationshipDeltas(model: string, was: Model, now: Model): string -> seq<Change> {
    n => RelationshipDelta(model, n, was, now)
  }

  ghost function ModelChanges(model: string, was: Model, now: Model): seq<Change> {
    Deltas(was.fields.Keys, now.fields.Keys, FieldDeltas(model, was, now))
    + Deltas(was.relationships.Keys, now.relationships.Keys, RelationshipDeltas(model, was, now))
  }

  ghost function ModelDelta(n: string, was: Schema, now: Schema): seq<Change> {
    if n in was && n in now then ModelChanges(n, was[n], now[n])
    else if n in now then [Change(AddModel, n, n, Whole, false)]
    else if n in was then [Change(DropModel, n, n, Whole, true)]
    else []
  }

  ghost function ModelDeltas(was: Schema, now: Schema): string -> seq<Change> {
    n => ModelDelta(n, was, now)
  }

  function KindOrder(k: Kind): nat {
    match k
    case AddModel => 0
    case DropModel => 1
    case AddField => 2
    case AlterField => 3
    case DropField => 4
    case AddIndex => 5
    case DropIndex => 6
    case AddRelationship => 7
    case AlterRelationship => 8
    case DropRelationship => 9
  }

  /** By model, then kind, then target. */
  function ChangeLeq(): (Change, Change) -> bool {
    (a: Change, b: Change) =>
      if a.model != b.model then StrLeq(a.model, b.model)
      else if a.kind != b.kind then KindOrder(a.kind) <= KindOrder(b.kind)
      else StrLeq(a.target, b.target)
  }

  ghost function Unsorted(was: Schema, now: Schema): seq<Change> {
    Deltas(was.Keys, now.Keys, ModelDeltas(was, now))
  }

  /** The plan: a function of the schemas as dictionaries, so the order in which models and fields are
      declared cannot matter. */
  ghost function Plan(was: Schema, now: Schema): seq<Change> {
    Sort(Unsorted(was, now), ChangeLeq())
  }

  // ----- membership -----

  lemma {:induction false} FlatMapHolds(names: seq<string>, delta: string -> seq<Change>)
    ensures forall n, c :: n in names && c in delta(n) ==> c in FlatMap(names, delta)
    ensures FlatMap(names, delta) == [] <==> forall n :: n in names ==> delta(n) == []
  {
    if names != [] {
      FlatMapHolds(names[1..], delta);
    }
  }

  lemma DeltasHold(was: set<string>, now: set<string>, delta: string -> seq<Change>)
    ensures forall n, c :: n in was + now && c in delta(n) ==> c in Deltas(was, now, delta)
    ensures Deltas(was, now, delta) == [] <==> forall n :: n in was + now ==> delta(n) == []
  {
    NamesHold(now - was);
    NamesHold(was - now);
    NamesHold(was * now);
    FlatMapHolds(Names(now - was), delta);
    FlatMapHolds(Names(was - now), delta);
    FlatMapHolds(Names(was * now), delta);
    forall n | n in was + now ensures n in Names(now - was) || n in Names(was - now) || n in Names(was * now) {
    }
  }

  lemma {:induction false} SortKeeps(cs: seq<Change>)
    ensures multiset(Sort(cs, ChangeLeq())) == multiset(cs)
    ensures forall c :: c in cs <==> c in Sort(cs, ChangeLeq())
    ensures cs == [] <==> Sort(cs, ChangeLeq()) == []
  {
    SortMultiset(cs);
    forall c ensures c in cs <==> c in Sort(cs, ChangeLeq()) {
      assert c in multiset(cs) <==> c in multiset(Sort(cs, ChangeLeq()));
    }
  }

  lemma {:induction false} SortMultiset(cs: seq<Change>)
    ensures multiset(Sort(cs, ChangeLeq())) == multiset(cs)
  {
    if cs != [] {
      SortMultiset(cs[1..]);
      InsertElements(cs[0], Sort(cs[1..], ChangeLeq()), ChangeLeq());
      assert cs == [cs[0]] + cs[1..];
    }
  }

  // ----- the empty plan -----

  predicate SameTracked(was: Field, now: Field) {
    was.(hasDefault := now.hasDefault) == now
  }

  ghost predicate SameFields(was: Model, now: Model) {
    was.fields.Keys == now.fields.Keys && forall n :: n in was.fields && n in now.fields ==> SameTracked(was.fields[n], now.fields[n])
  }

  ghost predicate SameModel(was: Model, now: Model) {
    SameFields(was, now) && was.relationships == now.relationships
  }

  lemma FieldDeltaEmpty(model: string, n: string, was: Model, now: Model)
    ensures FieldDelta(model, n, was, now) == [] <==>
      (n in was.fields <==> n in now.fields) && (n in was.fields && n in now.fields ==> SameTracked(was.fields[n], now.fields[n]))
  {
  }

  lemma FieldsEmpty(model: string, was: Model, now: Model)
    ensures Deltas(was.fields.Keys, now.fields.Keys, FieldDeltas(model, was, now)) == [] <==> SameFields(was, now)
  {
    hide Deltas, FieldDelta, SameTracked;
    DeltasHold(was.fields.Keys, now.fields.Keys, FieldDeltas(model, was, now));
    forall n | n in was.fields.Keys + now.fields.Keys
      ensures FieldDeltas(model, was, now)(n) == [] <==>
        (n in was.fields <==> n in now.fields) && (n in was.fields && n in now.fields ==> SameTracked(was.fields[n], now.fields[n]))
    {
      FieldDeltaEmpty(model, n, was, now);
    }
    if forall n :: n in was.fields.Keys + now.fields.Keys ==> FieldDeltas(model, was, now)(n) == [] {
      assert was.fields.Keys == now.fields.Keys;
    }
  }

  lemma RelationshipsEmpty(model: string, was: Model, now: Model)
    ensures Deltas(was.relationships.Keys, now.relationships.Keys, RelationshipDeltas(model, was, now)) == [] <==>
      was.relationships == now.relationships
  {
    hide Deltas;
    var delta := RelationshipDeltas(model, was, now);
    DeltasHold(was.relationships.Keys, now.relationships.Keys, delta);
    if forall n :: n in was.relationships.Keys + now.relationships.Keys ==> delta(n) == [] {
      forall n | n in was.relationships.Keys + now.relationships.Keys
        ensures n in was.relationships && n in now.relationships && was.relationships[n] == now.relationships[n]
      {
        assert delta(n) == [];
      }
      assert was.relationships == now.relationships;
    }
  }

  lemma ModelChangesEmpty(model: string, was: Model, now: Model)
    ensures ModelChanges(model, was, now) == [] <==> SameModel(was, now)
  {
    hide Deltas, SameFields;
    FieldsEmpty(model, was, now);
    RelationshipsEmpty(model, was, now);
  }

  /** The plan is empty exactly when the schemas agree on everything a plan tracks: a changed default
      alone is no change. */
  lemma EmptyPlanMeansAgreement(was: Schema, now: Schema)
    ensures Plan(was, now) == [] <==> was.Keys == now.Keys && forall m :: m in was && m in now ==> SameModel(was[m], now[m])
  {
    hide Deltas, ModelChanges, SameModel;
    var delta := ModelDeltas(was, now);
    SortKeeps(Unsorted(was, now));
    DeltasHold(was.Keys, now.Keys, delta);
    forall m | m in was && m in now ensures delta(m) == [] <==> SameModel(was[m], now[m]) {
      ModelChangesEmpty(m, was[m], now[m]);
    }
    forall m | m in was.Keys + now.Keys && !(m in was && m in now) ensures delta(m) != [] {
    }
    if Plan(was, now) == [] {
      assert forall m :: m in was.Keys + now.Keys ==> delta(m) == [];
      assert was.Keys == now.Keys;
    }
  }

  // ----- the reversed plan -----

  datatype Key = Key(kind: Kind, model: string, target: string)

  function Dual(k: Kind): Kind {
    match k
    case AddModel => DropModel
    case DropModel => AddModel
    case AddField => DropField
    case DropField => AddField
    case AddIndex => DropIndex
    case DropIndex => AddIndex
    case AddRelationship => DropRelationship
    case DropRelationship => AddRelationship
    case AlterField => AlterField
    case AlterRelationship => AlterRelationship
  }

  /** What the changes are about, as a bag; with `reverse`, what undoing them would be about. */
  function Bag(cs: seq<Change>, reverse: bool): multiset<Key> {
    if cs == [] then multiset{}
    else multiset{Key(if reverse then Dual(cs[0].kind) else cs[0].kind, cs[0].model, cs[0].target)} + Bag(cs[1..], reverse)
  }

  lemma {:induction false} BagAppend(a: seq<Change>, b: seq<Change>, reverse: bool)
    ensures Bag(a + b, reverse) == Bag(a, reverse) + Bag(b, reverse)
  {
    if a == [] {
      assert a + b == b;
    } else {
      assert (a + b)[1..] == a[1..] + b;
      BagAppend(a[1..], b, reverse);
    }
  }

  lemma {:induction false} BagInsert(c: Change, cs: seq<Change>, reverse: bool)
    ensures Bag(Insert(c, cs, ChangeLeq()), reverse) == Bag([c] + cs, reverse)
  {
    assert ([c] + cs)[1..] == cs;
    if !(cs == [] || ChangeLeq()(c, cs[0])) {
      BagInsert(c, cs[1..], reverse);
      assert ([c] + cs[1..])[1..] == cs[1..];
      assert ([cs[0]] + Insert(c, cs[1..], ChangeLeq()))[1..] == Insert(c, cs[1..], ChangeLeq());
    }
  }

  lemma {:induction false} BagSort(cs: seq<Change>, reverse: bool)
    ensures Bag(Sort(cs, ChangeLeq()), reverse) == Bag(cs, reverse)
  {
    if cs != [] {
      BagSort(cs[1..], reverse);
      BagInsert(cs[0], Sort(cs[1..], ChangeLeq()), reverse);
      assert ([cs[0]] + Sort(cs[1..], ChangeLeq()))[1..] == Sort(cs[1..], ChangeLeq());
    }
  }

  lemma {:induction false} BagFlatMap(names: seq<string>, delta: string -> seq<Change>, back: string -> seq<Change>)
    requires forall n :: n in names ==> Bag(back(n), false) == Bag(delta(n), true)
    ensures Bag(FlatMap(names, back), false) == Bag(FlatMap(names, delta), true)
  {
    if names != [] {
      BagFlatMap(names[1..], delta, back);
      BagAppend(back(names[0]), FlatMap(names[1..], back), false);
      BagAppend(delta(names[0]), FlatMap(names[1..], delta), true);
    }
  }

  lemma BagDeltas(was: set<string>, now: set<string>, delta: string -> seq<Change>, back: string -> seq<Change>)
    requires forall n :: Bag(back(n), false) == Bag(delta(n), true)
    ensures Bag(Deltas(now, was, back), false) == Bag(Deltas(was, now, delta), true)
  {
    var added, dropped, both := Names(now - was), Names(was - now), Names(was * now);
    assert now * was == was * now;
    BagFlatMap(added, delta, back);
    BagFlatMap(dropped, delta, back);
    BagFlatMap(both, delta, back);
    BagAppend(FlatMap(added, delta) + FlatMap(dropped, delta), FlatMap(both, delta), true);
    BagAppend(FlatMap(added, delta), FlatMap(dropped, delta), true);
    BagAppend(FlatMap(dropped, back) + FlatMap(added, back), FlatMap(both, back), false);
    BagAppend(FlatMap(dropped, back), FlatMap(added, back), false);
  }

  lemma BagOne(c: Change, reverse: bool)
    ensures Bag([c], reverse) == multiset{Key(if reverse then Dual(c.kind) else c.kind, c.model, c.target)}
  {
    assert [c][1..] == [];
  }

  lemma BagWhen(c: bool, there: Change, back: Change)
    requires there.model == back.model && there.target == back.target && Dual(there.kind) == back.kind
    ensures Bag(When(c, back), false) == Bag(When(c, there), true)
  {
    BagOne(there, true);
    BagOne(back, false);
  }

  lemma BagAttribute(model: string, name: string, attribute: string, before: bool, after: bool)
    ensures Bag(AttributeChange(model, name, attribute, after, before), false) ==
      Bag(AttributeChange(model, name, attribute, before, after), true)
  {
    BagOne(Change(AddIndex, model, name, Attribute(attribute), false), after);
    BagOne(Change(DropIndex, model, name, Attribute(attribute), true), !after);
  }

  lemma BagNullability(model: string, name: string, before: bool, after: bool)
    ensures Bag(NullabilityChange(model, name, after, before), false) == Bag(NullabilityChange(model, name, before, after), true)
  {
    BagOne(Change(AlterField, model, name, NotNull, true), before);
    BagOne(Change(AlterField, model, name, Nullable, false), after);
  }

  lemma BagBoth(a: seq<Change>, b: seq<Change>, back: seq<Change>, more: seq<Change>)
    requires Bag(back, false) == Bag(a, true) && Bag(more, false) == Bag(b, true)
    ensures Bag(back + more, false) == Bag(a + b, true)
  {
    BagAppend(a, b, true);
    BagAppend(back, more, false);
  }

  lemma BagSix(a: seq<Change>, b: seq<Change>, c: seq<Change>, d: seq<Change>, e: seq<Change>, f: seq<Change>,
               a': seq<Change>, b': seq<Change>, c': seq<Change>, d': seq<Change>, e': seq<Change>, f': seq<Change>)
    requires Bag(a', false) == Bag(a, true) && Bag(b', false) == Bag(b, true) && Bag(c', false) == Bag(c, true)
    requires Bag(d', false) == Bag(d, true) && Bag(e', false) == Bag(e, true) && Bag(f', false) == Bag(f, true)
    ensures Bag(Six(a', b', c', d', e', f'), false) == Bag(Six(a, b, c, d, e, f), true)
  {
    hide Bag;
    BagBoth(a, b, a', b');
    BagBoth(a + b, c, a' + b', c');
    BagBoth(a + b + c, d, a' + b' + c', d');
    BagBoth(a + b + c + d, e, a' + b' + c' + d', e');
    BagBoth(a + b + c + d + e, f, a' + b' + c' + d' + e', f');
  }

  lemma BagField(model: string, n: string, was: Field, now: Field)
    ensures Bag(FieldChanges(model, n, now, was), false) == Bag(FieldChanges(model, n, was, now), true)
  {
    hide When, NullabilityChange, AttributeChange, Bag, Six;
    var typed := Change(AlterField, model, n, TypeOf(was.kind, now.kind), true);
    var typedBack := Change(AlterField, model, n, TypeOf(now.kind, was.kind), true);
    var sized := Change(AlterField, model, n, DimensionOf(was.vectorDim, now.vectorDim), true);
    var sizedBack := Change(AlterField, model, n, DimensionOf(now.vectorDim, was.vectorDim), true);
    BagWhen(was.kind != now.kind, typed, typedBack);
    BagWhen(was.vectorDim != now.vectorDim, sized, sizedBack);
    BagNullability(model, n, was.nullable, now.nullable);
    BagAttribute(model, n, "index", was.index, now.index);
    BagAttribute(model, n, "unique", was.unique, now.unique);
    BagAttribute(model, n, "primary_key", was.primaryKey, now.primaryKey);
    BagSix(When(was.kind != now.kind, typed), When(was.vectorDim != now.vectorDim, sized),
           NullabilityChange(model, n, was.nullable, now.nullable), AttributeChange(model, n, "index", was.index, now.index),
           AttributeChange(model, n, "unique", was.unique, now.unique),
           AttributeChange(model, n, "primary_key", was.primaryKey, now.primaryKey),
           When(now.kind != was.kind, typedBack), When(now.vectorDim != was.vectorDim, sizedBack),
           NullabilityChange(model, n, now.nullable, was.nullable), AttributeChange(model, n, "index", now.index, was.index),
           AttributeChange(model, n, "unique", now.unique, was.unique),
           AttributeChange(model, n, "primary_key", now.primaryKey, was.primaryKey));
  }

  lemma BagFieldDelta(model: string, n: string, was: Model, now: Model)
    ensures Bag(FieldDelta(model, n, now, was), false) == Bag(FieldDelta(model, n, was, now), true)
  {
    hide FieldChanges;
    if n in was.fields && n in now.fields {
      BagField(model, n, was.fields[n], now.fields[n]);
    } else if n in now.fields {
      BagOne(FieldDelta(model, n, was, now)[0], true);
      BagOne(FieldDelta(model, n, now, was)[0], false);
    } else if n in was.fields {
      BagOne(FieldDelta(model, n, was, now)[0], true);
      BagOne(FieldDelta(model, n, now, was)[0], false);
    }
  }

  lemma BagRelationshipDelta(model: string, n: string, was: Model, now: Model)
    ensures Bag(RelationshipDelta(model, n, now, was), false) == Bag(RelationshipDelta(model, n, was, now), true)
  {
    if n in was.relationships && n in now.relationships {
      var (a, b) := (was.relationships[n], now.relationships[n]);
      BagWhen(a != b, Change(AlterRelationship, model, n, Ends(a, b), true), Change(AlterRelationship, model, n, Ends(b, a), true));
    } else if n in now.relationships || n in was.relationships {
      BagOne(RelationshipDelta(model, n, was, now)[0], true);
      BagOne(RelationshipDelta(model, n, now, was)[0], false);
    }
  }

  lemma BagModel(model: string, was: Model, now: Model)
    ensures Bag(ModelChanges(model, now, was), false) == Bag(ModelChanges(model, was, now), true)
  {
    hide Deltas, FieldDelta, RelationshipDelta, Bag;
    var fields, fieldsBack := FieldDeltas(model, was, now), FieldDeltas(model, now, was);
    var links, linksBack := RelationshipDeltas(model, was, now), RelationshipDeltas(model, now, was);
    forall n
      ensures Bag(fieldsBack(n), false) == Bag(fields(n), true)
      ensures Bag(linksBack(n), false) == Bag(links(n), true)
    {
      BagFieldDelta(model, n, was, now);
      BagRelationshipDelta(model, n, was, now);
    }
    BagDeltas(was.fields.Keys, now.fields.Keys, fields, fieldsBack);
    BagDeltas(was.relationships.Keys, now.relationships.Keys, links, linksBack);
    BagAppend(Deltas(was.fields.Keys, now.fields.Keys, fields),
              Deltas(was.relationships.Keys, now.relationships.Keys, links), true);
    BagAppend(Deltas(now.fields.Keys, was.fields.Keys, fieldsBack),
              Deltas(now.relationships.Keys, was.relationships.Keys, linksBack), false);
  }

  lemma BagModelDelta(n: string, was: Schema, now: Schema)
    ensures Bag(ModelDelta(n, now, was), false) == Bag(ModelDelta(n, was, now), true)
  {
    hide ModelChanges;
    if n in was && n in now {
      BagModel(n, was[n], now[n]);
    } else if n in now || n in was {
      BagOne(ModelDelta(n, was, now)[0], true);
      BagOne(ModelDelta(n, now, was)[0], false);
    }
  }

  /** Swapping old and new reverses the plan: the same targets, every addition a removal and every
      removal an addition. */
  lemma PlanReverses(was: Schema, now: Schema)
    ensures Bag(Plan(now, was), false) == Bag(Plan(was, now), true)
  {
    hide Deltas, ModelDelta, Bag;
    var delta, back := ModelDeltas(was, now), ModelDeltas(now, was);
    forall n ensures Bag(back(n), false) == Bag(delta(n), true) {
      BagModelDelta(n, was, now);
    }
    BagDeltas(was.Keys, now.Keys, delta, back);
    BagSort(Unsorted(was, now), true);
    BagSort(Unsorted(now, was), false);
  }

  // ----- plans without destructive changes -----

  /** A stored cell of a typed column. */
  datatype Cell = Missing | Cell(kind: string, vectorDim: Option<int>, content: int)

  type Record = map<string, Cell>

  ghost predicate Fits(row: Record, fields: map<string, Field>) {
    && row.Keys == fields.Keys
    && forall n :: n in fields ==>
         if row[n].Missing? then fields[n].nullable else row[n].kind == fields[n].kind && row[n].vectorDim == fields[n].vectorDim
  }

  /** The row under the new fields: added ones take their default, or null. */
  ghost function Migrated(row: Record, fields: map<string, Field>, defaults: string -> int): Record {
    map n | n in fields ::
      if n in row then row[n]
      else if fields[n].hasDefault then Cell(fields[n].kind, fields[n].vectorDim, defaults(n))
      else Missing
  }

  ghost predicate Safe(cs: seq<Change>) {
    forall c :: c in cs ==> !c.destructive
  }

  lemma OneIsUnsafe(c: Change)
    requires c.destructive
    ensures !Safe([c]) && !Safe(When(true, c))
  {
    assert c in [c];
  }

  lemma SafeSix(a: seq<Change>, b: seq<Change>, c: seq<Change>, d: seq<Change>, e: seq<Change>, f: seq<Change>)
    requires Safe(Six(a, b, c, d, e, f))
    ensures Safe(a) && Safe(b) && Safe(c)
  {
    forall x | x in a || x in b || x in c ensures x in Six(a, b, c, d, e, f) {
    }
  }

  lemma SafeFieldChanges(model: string, n: string, a: Field, b: Field)
    requires Safe(FieldChanges(model, n, a, b))
    ensures a.kind == b.kind && a.vectorDim == b.vectorDim && (a.nullable ==> b.nullable)
  {
    hide Six;
    var typed := Change(AlterField, model, n, TypeOf(a.kind, b.kind), true);
    var sized := Change(AlterField, model, n, DimensionOf(a.vectorDim, b.vectorDim), true);
    OneIsUnsafe(typed);
    OneIsUnsafe(sized);
    OneIsUnsafe(Change(AlterField, model, n, NotNull, true));
    SafeSix(When(a.kind != b.kind, typed), When(a.vectorDim != b.vectorDim, sized),
            NullabilityChange(model, n, a.nullable, b.nullable), AttributeChange(model, n, "index", a.index, b.index),
            AttributeChange(model, n, "unique", a.unique, b.unique), AttributeChange(model, n, "primary_key", a.primaryKey, b.primaryKey));
  }

  lemma SafeField(model: string, n: string, was: Model, now: Model)
    requires Safe(FieldDelta(model, n, was, now))
    ensures n in was.fields ==> n in now.fields
    ensures n in was.fields && n in now.fields ==>
      && was.fields[n].kind == now.fields[n].kind && was.fields[n].vectorDim == now.fields[n].vectorDim
      && (was.fields[n].nullable ==> now.fields[n].nullable)
    ensures n !in was.fields && n in now.fields ==> now.fields[n].nullable || now.fields[n].hasDefault
  {
    hide FieldChanges;
    OneIsUnsafe(Change(DropField, model, n, Whole, true));
    OneIsUnsafe(Change(AddField, model, n, NewField(true), true));
    if n in was.fields && n in now.fields {
      SafeFieldChanges(model, n, was.fields[n], now.fields[n]);
    }
  }

  lemma SafeFieldsKeepRows(model: string, was: Model, now: Model, row: Record, defaults: string -> int)
    requires Fits(row, was.fields)
    requires forall n :: n in was.fields.Keys + now.fields.Keys ==> Safe(FieldDelta(model, n, was, now))
    ensures Fits(Migrated(row, now.fields, defaults), now.fields)
    ensures forall n :: n in row ==> n in now.fields && Migrated(row, now.fields, defaults)[n] == row[n]
  {
    hide FieldDelta;
    forall n | n in was.fields.Keys + now.fields.Keys
      ensures n in now.fields
      ensures n in row ==> (if row[n].Missing? then now.fields[n].nullable
                            else row[n].kind == now.fields[n].kind && row[n].vectorDim == now.fields[n].vectorDim)
      ensures n !in row ==> now.fields[n].nullable || now.fields[n].hasDefault
    {
      SafeField(model, n, was, now);
    }
  }

  /** A plan without destructive changes keeps the data: every model survives with every field, and
      every row that fitted the old fields fits the new ones once added fields take their default or
      null. What becomes of uniqueness is the subject of SafePlansKeepTablesExactly. */
  lemma SafePlansKeepRows(was: Schema, now: Schema, model: string, row: Record, defaults: string -> int)
    requires Safe(Plan(was, now)) && model in was && Fits(row, was[model].fields)
    ensures model in now
    ensures Fits(Migrated(row, now[model].fields, defaults), now[model].fields)
    ensures forall n :: n in row ==> n in now[model].fields && Migrated(row, now[model].fields, defaults)[n] == row[n]
  {
    hide Deltas, ModelChanges, FieldDelta, Fits, Migrated;
    SortKeeps(Unsorted(was, now));
    var delta := ModelDeltas(was, now);
    DeltasHold(was.Keys, now.Keys, delta);
    assert Safe(delta(model));
    OneIsUnsafe(Change(DropModel, model, model, Whole, true));
    SafeModel(model, was[model], now[model]);
    SafeFieldsKeepRows(model, was[model], now[model], row, defaults);
  }

  lemma SafeModel(model: string, was: Model, now: Model)
    requires Safe(ModelChanges(model, was, now))
    ensures forall n :: n in was.fields.Keys + now.fields.Keys ==> Safe(FieldDelta(model, n, was, now))
  {
    hide Deltas, FieldDelta;
    var delta := FieldDeltas(model, was, now);
    DeltasHold(was.fields.Keys, now.fields.Keys, delta);
    forall n, c | n in was.fields.Keys + now.fields.Keys && c in FieldDelta(model, n, was, now) ensures !c.destructive {
      assert c in delta(n);
      assert c in ModelChanges(model, was, now);
    }
  }

  // ----- uniqueness: what a safe plan may break -----

  /** No two rows of the table share a value in the field. */
  predicate Keyed(f: Field) {
    f.unique || f.primaryKey
  }

  ghost predicate NoValueTwice(rows: seq<Record>, n: string) {
    forall i, j :: 0 <= i < j < |rows| && n in rows[i] && n in rows[j] && rows[i][n] == rows[j][n] ==> rows[i][n].Missing?
  }

  /** Every row fits, a primary key is never null, and a unique field or primary key holds no value
      twice; nulls do not count as equal. */
  ghost predicate FitsTable(rows: seq<Record>, fields: map<string, Field>) {
    && (forall i :: 0 <= i < |rows| ==> Fits(rows[i], fields))
    && (forall i, n :: 0 <= i < |rows| && n in fields && n in rows[i] && fields[n].primaryKey ==> !rows[i][n].Missing?)
    && (forall n :: n in fields && Keyed(fields[n]) ==> NoValueTwice(rows, n))
  }

  ghost function MigratedAll(rows: seq<Record>, fields: map<string, Field>, defaults: string -> int): (r: seq<Record>)
    ensures |r| == |rows| && forall i :: 0 <= i < |r| ==> r[i] == Migrated(rows[i], fields, defaults)
  {
    seq(|rows|, i requires 0 <= i < |rows| => Migrated(rows[i], fields, defaults))
  }

  /** An existing field becomes keyed only if it was, and a primary key only if it could not be null; an
      added one is no primary key, and not unique with a default for all rows to share. */
  predicate KeepsUniqueness(was: Option<Field>, now: Field) {
    if was.Some? then (Keyed(now) ==> Keyed(was.value)) && (now.primaryKey ==> was.value.primaryKey || !was.value.nullable)
    else !now.primaryKey && !(now.unique && now.hasDefault)
  }

  function FieldIn(fields: map<string, Field>, n: string): Option<Field> {
    if n in fields then Some(fields[n]) else None
  }

  /** A row of the old fields whose cells are told apart by `k`, except in the field `n`. */
  ghost function SampleRow(fields: map<string, Field>, n: string, k: int): Record {
    map m | m in fields :: Cell(fields[m].kind, fields[m].vectorDim, if m == n then 0 else k)
  }

  lemma SampleFits(fields: map<string, Field>, n: string)
    requires n in fields ==> !Keyed(fields[n])
    ensures FitsTable([SampleRow(fields, n, 0), SampleRow(fields, n, 1)], fields)
  {
    var rows := [SampleRow(fields, n, 0), SampleRow(fields, n, 1)];
    forall m | m in fields && Keyed(fields[m]) ensures NoValueTwice(rows, m) {
      assert rows[0][m] != rows[1][m];
    }
  }

  /** A table of the old fields that the new ones refuse. */
  ghost function Refused(was: map<string, Field>, now: map<string, Field>, n: string): seq<Record> {
    if n in was && n in now && Keyed(now[n]) && Keyed(was[n]) then [SampleRow(was, n, 0)[n := Missing]]
    else [SampleRow(was, n, 0), SampleRow(was, n, 1)]
  }

  lemma BrokenUniqueness(was: map<string, Field>, now: map<string, Field>, n: string, defaults: string -> int)
    requires n in now && !KeepsUniqueness(FieldIn(was, n), now[n])
    ensures FitsTable(Refused(was, now, n), was) && !FitsTable(MigratedAll(Refused(was, now, n), now, defaults), now)
  {
    hide Fits;
    var rows: seq<Record> := Refused(was, now, n);
    var after: seq<Record> := MigratedAll(rows, now, defaults);
    if n in was && Keyed(now[n]) && Keyed(was[n]) {
      NullRowFits(was, n);
      assert after[0][n].Missing?;
    } else {
      SampleFits(was, n);
      assert n in after[0] && n in after[1] && after[0][n] == after[1][n];
      assert now[n].primaryKey || !after[0][n].Missing?;
    }
  }

  lemma NullRowFits(fields: map<string, Field>, n: string)
    requires n in fields && fields[n].nullable && !fields[n].primaryKey
    ensures FitsTable([SampleRow(fields, n, 0)[n := Missing]], fields)
  {
  }

  lemma KeptUniqueness(was: map<string, Field>, now: map<string, Field>, rows: seq<Record>, defaults: string -> int)
    requires FitsTable(rows, was)
    requires forall n :: n in now ==> KeepsUniqueness(FieldIn(was, n), now[n])
    requires forall i :: 0 <= i < |rows| ==> Fits(Migrated(rows[i], now, defaults), now)
    ensures FitsTable(MigratedAll(rows, now, defaults), now)
  {
    hide KeepsUniqueness;
    var after: seq<Record> := MigratedAll(rows, now, defaults);
    forall n | n in now
      ensures Keyed(now[n]) ==> NoValueTwice(after, n)
      ensures forall i :: 0 <= i < |after| && n in after[i] && now[n].primaryKey ==> !after[i][n].Missing?
    {
      KeptInField(was, now, rows, defaults, n);
    }
  }

  lemma KeptInField(was: map<string, Field>, now: map<string, Field>, rows: seq<Record>, defaults: string -> int, n: string)
    requires FitsTable(rows, was) && n in now && KeepsUniqueness(FieldIn(was, n), now[n])
    ensures
      var after := MigratedAll(rows, now, defaults);
      && (Keyed(now[n]) ==> NoValueTwice(after, n))
      && forall i :: 0 <= i < |after| && n in after[i] && now[n].primaryKey ==> !after[i][n].Missing?
  {
    var after: seq<Record> := MigratedAll(rows, now, defaults);
    assert forall i :: 0 <= i < |rows| ==> rows[i].Keys == was.Keys;
    if n in was && Keyed(now[n]) {
      assert NoValueTwice(rows, n);
      assert forall i :: 0 <= i < |rows| ==> after[i][n] == rows[i][n];
      forall i | 0 <= i < |rows| && now[n].primaryKey ensures !rows[i][n].Missing? {
        assert Fits(rows[i], was);
      }
    }
  }

  /** A plan without destructive changes keeps the tables of a model, uniqueness included, if and only if
      no field of the model becomes keyed that was not, none becomes a primary key that could be null,
      and no field is added that is a primary key or unique with a default. */
  lemma SafePlansKeepTablesExactly(was: Schema, now: Schema, model: string, defaults: string -> int)
    requires Safe(Plan(was, now)) && model in was
    ensures model in now
    ensures
      (forall rows :: FitsTable(rows, was[model].fields) ==> FitsTable(MigratedAll(rows, now[model].fields, defaults), now[model].fields))
      <==> forall n :: n in now[model].fields ==> KeepsUniqueness(FieldIn(was[model].fields, n), now[model].fields[n])
  {
    hide FitsTable, KeepsUniqueness, MigratedAll, Plan, Refused;
    ModelSurvives(was, now, model);
    var before, after := was[model].fields, now[model].fields;
    if forall n :: n in after ==> KeepsUniqueness(FieldIn(before, n), after[n]) {
      forall rows | FitsTable(rows, before) ensures FitsTable(MigratedAll(rows, after, defaults), after) {
        RowsStillFit(was, now, model, rows, defaults);
        KeptUniqueness(before, after, rows, defaults);
      }
    } else {
      var n :| n in after && !KeepsUniqueness(FieldIn(before, n), after[n]);
      BrokenUniqueness(before, after, n, defaults);
    }
  }

  lemma RowsStillFit(was: Schema, now: Schema, model: string, rows: seq<Record>, defaults: string -> int)
    requires Safe(Plan(was, now)) && model in was && FitsTable(rows, was[model].fields)
    ensures model in now
    ensures forall i :: 0 <= i < |rows| ==> Fits(Migrated(rows[i], now[model].fields, defaults), now[model].fields)
  {
    hide Plan, Fits, Migrated;
    ModelSurvives(was, now, model);
    forall i | 0 <= i < |rows| ensures Fits(Migrated(rows[i], now[model].fields, defaults), now[model].fields) {
      SafePlansKeepRows(was, now, model, rows[i], defaults);
    }
  }

  lemma ModelSurvives(was: Schema, now: Schema, model: string)
    requires Safe(Plan(was, now)) && model in was
    ensures model in now
  {
    hide Deltas, ModelChanges;
    SortKeeps(Unsorted(was, now));
    DeltasHold(was.Keys, now.Keys, ModelDeltas(was, now));
    assert Safe(ModelDeltas(was, now)(model));
    OneIsUnsafe(Change(DropModel, model, model, Whole, true));
  }

  lemma {:induction false} SafeFlatMap(names: seq<string>, delta: string -> seq<Change>)
    requires forall n :: n in names ==> Safe(delta(n))
    ensures Safe(FlatMap(names, delta))
  {
    if names != [] {
      SafeFlatMap(names[1..], delta);
    }
  }

  lemma SafeDeltas(was: set<string>, now: set<string>, delta: string -> seq<Change>)
    requires forall n :: n in was + now ==> Safe(delta(n))
    ensures Safe(Deltas(was, now, delta))
  {
    NamesHold(now - was);
    NamesHold(was - now);
    NamesHold(was * now);
    SafeFlatMap(Names(now - was), delta);
    SafeFlatMap(Names(was - now), delta);
    SafeFlatMap(Names(was * now), delta);
  }

  /** The fields agree but for uniqueness, which is only added. */
  ghost predicate OnlyAddsUnique(was: Model, now: Model) {
    && was.relationships == now.relationships && was.fields.Keys == now.fields.Keys
    && forall n :: n in was.fields ==>
         now.fields[n] == was.fields[n].(unique := now.fields[n].unique) && (was.fields[n].unique ==> now.fields[n].unique)
  }

  lemma AddingUniqueIsSafe(model: string, was: Model, now: Model)
    requires OnlyAddsUnique(was, now)
    ensures Safe(ModelChanges(model, was, now))
  {
    hide Deltas;
    forall n | n in was.fields.Keys + now.fields.Keys ensures Safe(FieldDeltas(model, was, now)(n)) {
    }
    SafeDeltas(was.fields.Keys, now.fields.Keys, FieldDeltas(model, was, now));
    SafeDeltas(was.relationships.Keys, now.relationships.Keys, RelationshipDeltas(model, was, now));
  }

  /** Whatever uniqueness is added, and to whatever tables, the plan passes for not destructive. */
  lemma AddedUniquenessIsNeverDestructive(was: Schema, now: Schema)
    requires was.Keys == now.Keys && forall m :: m in was ==> OnlyAddsUnique(was[m], now[m])
    ensures Safe(Plan(was, now))
  {
    hide Deltas, ModelChanges, OnlyAddsUnique;
    forall m | m in was.Keys + now.Keys ensures Safe(ModelDeltas(was, now)(m)) {
      AddingUniqueIsSafe(m, was[m], now[m]);
    }
    SafeDeltas(was.Keys, now.Keys, ModelDeltas(was, now));
    SortKeeps(Unsorted(was, now));
  }

  const EMAIL: Field := Field("text", None, false, false, false, false, false)

  /** The users as they were, or with unique addresses. */
  function Users(unique: bool): Model {
    Model(map["email" := EMAIL.(unique := unique)], map[])
  }

  lemma TwoUsersWithOneAddress(defaults: string -> int)
    ensures
      var rows := [map["email" := Cell("text", None, 0)], map["email" := Cell("text", None, 0)]];
      FitsTable(rows, Users(false).fields) && !FitsTable(MigratedAll(rows, Users(true).fields, defaults), Users(true).fields)
  {
    var rows := [map["email" := Cell("text", None, 0)], map["email" := Cell("text", None, 0)]];
    var after := MigratedAll(rows, Users(true).fields, defaults);
    assert after[0]["email"] == after[1]["email"] == Cell("text", None, 0);
    assert !NoValueTwice(after, "email");
  }

  /** Two users with one address, and a safe plan after which they do not fit. */
  lemma SafePlanBreaksUniqueness(defaults: string -> int)
    ensures
      var was, now := map["User" := Users(false)], map["User" := Users(true)];
      var rows := [map["email" := Cell("text", None, 0)], map["email" := Cell("text", None, 0)]];
      && Safe(Plan(was, now)) && FitsTable(rows, was["User"].fields)
      && !FitsTable(MigratedAll(rows, now["User"].fields, defaults), now["User"].fields)
  {
    hide Plan, FitsTable, MigratedAll, Safe;
    AddedUniquenessIsNeverDestructive(map["User" := Users(false)], map["User" := Users(true)]);
    TwoUsersWithOneAddress(defaults);
  }

  // ----- order of the plan, order of declaration -----

  lemma ChangeOrderIsPreorder()
    ensures TotalPreorder(ChangeLeq())
  {
    var leq := ChangeLeq();
    forall a: Change, b: Change ensures leq(a, b) || leq(b, a) {
      StrLeqTotal(a.model, b.model);
      StrLeqTotal(a.target, b.target);
    }
    forall a: Change, b: Change, c: Change | leq(a, b) && leq(b, c) ensures leq(a, c) {
      if StrLeq(a.model, b.model) && StrLeq(b.model, c.model) {
        StrLeqTransitive(a.model, b.model, c.model);
      }
      if a.model == c.model && a.model != b.model {
        StrLeqAntisymmetric(a.model, b.model);
      }
      if StrLeq(a.target, b.target) && StrLeq(b.target, c.target) {
        StrLeqTransitive(a.target, b.target, c.target);
      }
      KindsDiffer(a.kind, b.kind);
      KindsDiffer(b.kind, c.kind);
      KindsDiffer(a.kind, c.kind);
    }
  }

  lemma KindsDiffer(a: Kind, b: Kind)
    ensures a == b <==> KindOrder(a) == KindOrder(b)
  {
  }

  /** The plan comes by model, then kind, then target, and holds exactly the changes found. */
  lemma PlanIsOrdered(was: Schema, now: Schema)
    ensures SortedBy(Plan(was, now), ChangeLeq())
    ensures multiset(Plan(was, now)) == multiset(Unsorted(was, now))
  {
    hide Unsorted;
    ChangeOrderIsPreorder();
    SortCorrect(Unsorted(was, now), ChangeLeq());
  }

  /** A declaration list read into a dictionary; a repeated name keeps its last entry. */
  function DictOf<T>(items: seq<(string, T)>): map<string, T> {
    if items == [] then map[]
    else
      var last := items[|items| - 1];
      DictOf(items[..|items| - 1])[last.0 := last.1]
  }

  ghost predicate DistinctNames<T>(items: seq<(string, T)>) {
    forall i, j :: 0 <= i < j < |items| ==> items[i].0 != items[j].0
  }

  lemma {:induction false} DictHolds<T>(items: seq<(string, T)>, i: nat)
    requires DistinctNames(items) && i < |items|
    ensures items[i].0 in DictOf(items) && DictOf(items)[items[i].0] == items[i].1
    decreases |items|
  {
    if i < |items| - 1 {
      DictHolds(items[..|items| - 1], i);
    }
  }

  lemma {:induction false} DictFrom<T>(items: seq<(string, T)>, n: string) returns (i: nat)
    requires n in DictOf(items)
    ensures i < |items| && items[i] == (n, DictOf(items)[n])
    decreases |items|
  {
    var k := |items| - 1;
    if items[k].0 == n {
      i := k;
    } else {
      i := DictFrom(items[..k], n);
    }
  }

  lemma DictIncluded<T>(items: seq<(string, T)>, others: seq<(string, T)>, n: string)
    requires DistinctNames(others) && multiset(items) == multiset(others) && n in DictOf(items)
    ensures n in DictOf(others) && DictOf(others)[n] == DictOf(items)[n]
  {
    var i := DictFrom(items, n);
    assert items[i] in multiset(others);
    var j :| 0 <= j < |others| && others[j] == items[i];
    DictHolds(others, j);
  }

  /** The order in which distinct names are declared does not matter. */
  lemma DictIgnoresOrder<T>(items: seq<(string, T)>, others: seq<(string, T)>)
    requires DistinctNames(items) && DistinctNames(others) && multiset(items) == multiset(others)
    ensures DictOf(items) == DictOf(others)
  {
    forall n | n in DictOf(items) ensures n in DictOf(others) && DictOf(others)[n] == DictOf(items)[n] {
      DictIncluded(items, others, n);
    }
    forall n | n in DictOf(others) ensures n in DictOf(items) {
      DictIncluded(others, items, n);
    }
  }

  /** A model as declared: its fields and relationships in order. */
  datatype Declaration = Declaration(fields: seq<(string, Field)>, relationships: seq<(string, Relationship)>)

  function ModelOf(d: Declaration): Model {
    Model(DictOf(d.fields), DictOf(d.relationships))
  }

  function Declared(items: seq<(string, Declaration)>): (r: seq<(string, Model)>)
    ensures |r| == |items| && forall i :: 0 <= i < |r| ==> r[i] == (items[i].0, ModelOf(items[i].1))
  {
    seq(|items|, i requires 0 <= i < |items| => (items[i].0, ModelOf(items[i].1)))
  }

  function SchemaOf(items: seq<(string, Declaration)>): Schema {
    DictOf(Declared(items))
  }

  /** The same fields and relationships, in any two orders. */
  ghost predicate SameMembers(d: Declaration, e: Declaration) {
    && DistinctNames(d.fields) && DistinctNames(e.fields) && multiset(d.fields) == multiset(e.fields)
    && DistinctNames(d.relationships) && DistinctNames(e.relationships)
    && multiset(d.relationships) == multiset(e.relationships)
  }

  ghost predicate Among(item: (string, Declaration), others: seq<(string, Declaration)>) {
    exists j :: 0 <= j < |others| && others[j].0 == item.0 && SameMembers(item.1, others[j].1)
  }

  /** The same models, in any two orders, each with its members in any two orders. */
  ghost predicate Permuted(items: seq<(string, Declaration)>, others: seq<(string, Declaration)>) {
    && DistinctNames(items) && DistinctNames(others)
    && (forall i :: 0 <= i < |items| ==> Among(items[i], others))
    && (forall j :: 0 <= j < |others| ==> Among(others[j], items))
  }

  lemma SchemaIncluded(items: seq<(string, Declaration)>, others: seq<(string, Declaration)>, n: string)
    requires DistinctNames(others) && (forall i :: 0 <= i < |items| ==> Among(items[i], others)) && n in SchemaOf(items)
    ensures n in SchemaOf(others) && SchemaOf(others)[n] == SchemaOf(items)[n]
  {
    var i := DictFrom(Declared(items), n);
    var j :| 0 <= j < |others| && others[j].0 == items[i].0 && SameMembers(items[i].1, others[j].1);
    assert DistinctNames(Declared(others));
    DictHolds(Declared(others), j);
    DictIgnoresOrder(items[i].1.fields, others[j].1.fields);
    DictIgnoresOrder(items[i].1.relationships, others[j].1.relationships);
  }

  lemma SchemaIgnoresOrder(items: seq<(string, Declaration)>, others: seq<(string, Declaration)>)
    requires Permuted(items, others)
    ensures SchemaOf(items) == SchemaOf(others)
  {
    hide SchemaOf, Among, DistinctNames;
    forall n | n in SchemaOf(items) ensures n in SchemaOf(others) && SchemaOf(others)[n] == SchemaOf(items)[n] {
      SchemaIncluded(items, others, n);
    }
    forall n | n in SchemaOf(others) ensures n in SchemaOf(items) {
      SchemaIncluded(others, items, n);
    }
  }

  /** Permuting the models, or the fields or relationships of any of them, on either side or both, leaves
      the plan as it is. */
  lemma PlanIgnoresDeclarationOrder(was: seq<(string, Declaration)>, was': seq<(string, Declaration)>,
                                    now: seq<(string, Declaration)>, now': seq<(string, Declaration)>)
    requires Permuted(was, was') && Permuted(now, now')
    ensures Plan(SchemaOf(was), SchemaOf(now)) == Plan(SchemaOf(was'), SchemaOf(now'))
  {
    SchemaIgnoresOrder(was, was');
    SchemaIgnoresOrder(now, now');
  }

  // ----- the methods -----

  lemma ThreeAndThree(a: seq<Change>, b: seq<Change>, c: seq<Change>, d: seq<Change>, e: seq<Change>, f: seq<Change>)
    ensures a + b + c + (d + e + f) == Six(a, b, c, d, e, f)
  {
  }

  method IndexChanges(model: string, name: string, was: Field, now: Field) returns (changes: seq<Change>)
    ensures changes == AttributeChange(model, name, "index", was.index, now.index)
      + AttributeChange(model, name, "unique", was.unique, now.unique)
      + AttributeChange(model, name, "primary_key", was.primaryKey, now.primaryKey)
  {
    var attributes := [("index", was.index, now.index), ("unique", was.unique, now.unique),
                       ("primary_key", was.primaryKey, now.primaryKey)];
    changes := [];
    ghost var parts := [AttributeChange(model, name, "index", was.index, now.index),
                        AttributeChange(model, name, "unique", was.unique, now.unique),
                        AttributeChange(model, name, "primary_key", was.primaryKey, now.primaryKey)];
    for i := 0 to 3
      invariant changes == (if i == 0 then [] else if i == 1 then parts[0] else if i == 2 then parts[0] + parts[1]
                            else parts[0] + parts[1] + parts[2])
    {
      var (attribute, before, after) := attributes[i];
      if before != after {
        if after {
          changes := changes + [Change(AddIndex, model, name, Attribute(attribute), false)];
        } else {
          changes := changes + [Change(DropIndex, model, name, Attribute(attribute), true)];
        }
      }
    }
  }

  method FieldChangesOf(model: string, name: string, was: Field, now: Field) returns (changes: seq<Change>)
    ensures changes == FieldChanges(model, name, was, now)
  {
    hide Six, AttributeChange;
    var typed: seq<Change>, sized: seq<Change>, nullity: seq<Change> := [], [], [];
    if was.kind != now.kind {
      typed := [Change(AlterField, model, name, TypeOf(was.kind, now.kind), true)];
    }
    if was.vectorDim != now.vectorDim {
      sized := [Change(AlterField, model, name, DimensionOf(was.vectorDim, now.vectorDim), true)];
    }
    if was.nullable && !now.nullable {
      nullity := [Change(AlterField, model, name, NotNull, true)];
    } else if !was.nullable && now.nullable {
      nullity := [Change(AlterField, model, name, Nullable, false)];
    }
    var indexed := IndexChanges(model, name, was, now);
    ThreeAndThree(typed, sized, nullity, AttributeChange(model, name, "index", was.index, now.index),
                  AttributeChange(model, name, "unique", was.unique, now.unique),
                  AttributeChange(model, name, "primary_key", was.primaryKey, now.primaryKey));
    changes := typed + sized + nullity + indexed;
  }

  lemma {:induction false} FlatMapMore(names: seq<string>, n: string, delta: string -> seq<Change>)
    ensures FlatMap(names + [n], delta) == FlatMap(names, delta) + delta(n)
  {
    if names == [] {
      assert [n][1..] == [];
      assert [] + [n] == [n];
      assert delta(n) + FlatMap([], delta) == [] + delta(n);
    } else {
      assert (names + [n])[1..] == names[1..] + [n];
      FlatMapMore(names[1..], n, delta);
      assert delta(names[0]) + (FlatMap(names[1..], delta) + delta(n)) == delta(names[0]) + FlatMap(names[1..], delta) + delta(n);
    }
  }

  lemma FlatMapNext(names: seq<string>, i: nat, delta: string -> seq<Change>)
    requires i < |names|
    ensures FlatMap(names[..i + 1], delta) == FlatMap(names[..i], delta) + delta(names[i])
  {
    assert names[..i + 1] == names[..i] + [names[i]];
    FlatMapMore(names[..i], names[i], delta);
  }

  /** The changes to the fields with these names, in this order. */
  method FieldsOf(model: string, was: Model, now: Model, names: seq<string>) returns (changes: seq<Change>)
    ensures changes == FlatMap(names, FieldDeltas(model, was, now))
  {
    hide FieldChanges;
    changes := [];
    for i := 0 to |names|
      invariant changes == FlatMap(names[..i], FieldDeltas(model, was, now))
    {
      var n := names[i];
      FlatMapNext(names, i, FieldDeltas(model, was, now));
      var more: seq<Change> := [];
      if n in now.fields && n !in was.fields {
        var required := !(now.fields[n].nullable || now.fields[n].hasDefault);
        more := [Change(AddField, model, n, NewField(required), required)];
      } else if n in was.fields && n !in now.fields {
        more := [Change(DropField, model, n, Whole, true)];
      } else if n in was.fields {
        more := FieldChangesOf(model, n, was.fields[n], now.fields[n]);
      }
      changes := changes + more;
    }
    assert names[..|names|] == names;
  }

  method RelationshipsOf(model: string, was: Model, now: Model, names: seq<string>) returns (changes: seq<Change>)
    ensures changes == FlatMap(names, RelationshipDeltas(model, was, now))
  {
    changes := [];
    for i := 0 to |names|
      invariant changes == FlatMap(names[..i], RelationshipDeltas(model, was, now))
    {
      var n := names[i];
      FlatMapNext(names, i, RelationshipDeltas(model, was, now));
      var more: seq<Change> := [];
      if n in now.relationships && n !in was.relationships {
        more := [Change(AddRelationship, model, n, Whole, false)];
      } else if n in was.relationships && n !in now.relationships {
        more := [Change(DropRelationship, model, n, Whole, true)];
      } else if n in was.relationships && was.relationships[n] != now.relationships[n] {
        more := [Change(AlterRelationship, model, n, Ends(was.relationships[n], now.relationships[n]), true)];
      }
      changes := changes + more;
    }
    assert names[..|names|] == names;
  }

  method ModelChangesOf(model: string, was: Model, now: Model) returns (changes: seq<Change>)
    ensures changes == ModelChanges(model, was, now)
  {
    hide FieldDelta, RelationshipDelta;
    var added := SortedNames(now.fields.Keys - was.fields.Keys);
    var dropped := SortedNames(was.fields.Keys - now.fields.Keys);
    var kept := SortedNames(was.fields.Keys * now.fields.Keys);
    var a := FieldsOf(model, was, now, added);
    var b := FieldsOf(model, was, now, dropped);
    var c := FieldsOf(model, was, now, kept);
    var newLinks := SortedNames(now.relationships.Keys - was.relationships.Keys);
    var oldLinks := SortedNames(was.relationships.Keys - now.relationships.Keys);
    var keptLinks := SortedNames(was.relationships.Keys * now.relationships.Keys);
    var d := RelationshipsOf(model, was, now, newLinks);
    var e := RelationshipsOf(model, was, now, oldLinks);
    var f := RelationshipsOf(model, was, now, keptLinks);
    changes := a + b + c + (d + e + f);
  }

  method ModelsOf(was: Schema, now: Schema, names: seq<string>) returns (changes: seq<Change>)
    ensures changes == FlatMap(names, ModelDeltas(was, now))
  {
    hide ModelChanges;
    changes := [];
    for i := 0 to |names|
      invariant changes == FlatMap(names[..i], ModelDeltas(was, now))
    {
      var n := names[i];
      FlatMapNext(names, i, ModelDeltas(was, now));
      var more: seq<Change> := [];
      if n in now && n !in was {
        more := [Change(AddModel, n, n, Whole, false)];
      } else if n in was && n !in now {
        more := [Change(DropModel, n, n, Whole, true)];
      } else if n in was {
        more := ModelChangesOf(n, was[n], now[n]);
      }
      changes := changes + more;
    }
    assert names[..|names|] == names;
  }

  method DiffSchemas(was: Schema, now: Schema) returns (plan: seq<Change>)
    ensures plan == Plan(was, now)
  {
    hide ModelDelta;
    var added := SortedNames(now.Keys - was.Keys);
    var dropped := SortedNames(was.Keys - now.Keys);
    var kept := SortedNames(was.Keys * now.Keys);
    var a := ModelsOf(was, now, added);
    var b := ModelsOf(was, now, dropped);
    var c := ModelsOf(was, now, kept);
    plan := Sort(a + b + c, ChangeLeq());
  }

  // ----- exactly which changes a plan holds -----

  /** What the change of an existing field must be. */
  ghost predicate Altered(was: Field, now: Field, c: Change) {
    || (was.kind != now.kind && c.detail == TypeOf(was.kind, now.kind) && c.destructive)
    || (was.vectorDim != now.vectorDim && c.detail == DimensionOf(was.vectorDim, now.vectorDim) && c.destructive)
    || (was.nullable && !now.nullable && c.detail == NotNull && c.destructive)
    || (!was.nullable && now.nullable && c.detail == Nullable && !c.destructive)
  }

  /** The attribute that the change names is off before and on after. */
  ghost predicate TurnedOn(was: Field, now: Field, c: Change) {
    || (c.detail == Attribute("index") && !was.index && now.index)
    || (c.detail == Attribute("unique") && !was.unique && now.unique)
    || (c.detail == Attribute("primary_key") && !was.primaryKey && now.primaryKey)
  }

  /** The change belongs to a plan: what it adds is only in the new schema, what it drops only in the old one,
      what it alters differs in both, and it is destructive as its kind says. */
  ghost predicate Due(was: Schema, now: Schema, c: Change) {
    var m, n := c.model, c.target;
    match c.kind
    case AddModel => m == n && m !in was && m in now && c.detail == Whole && !c.destructive
    case DropModel => m == n && m in was && m !in now && c.detail == Whole && c.destructive
    case _ => m in was && m in now && DueInModel(was[m], now[m], c)
  }

  ghost predicate DueInModel(was: Model, now: Model, c: Change) {
    var n := c.target;
    match c.kind
    case AddModel => false
    case DropModel => false
    case AddField =>
      && n !in was.fields && n in now.fields
      && c.destructive == (!now.fields[n].nullable && !now.fields[n].hasDefault) && c.detail == NewField(c.destructive)
    case DropField => n in was.fields && n !in now.fields && c.detail == Whole && c.destructive
    case AlterField => n in was.fields && n in now.fields && Altered(was.fields[n], now.fields[n], c)
    case AddIndex => n in was.fields && n in now.fields && TurnedOn(was.fields[n], now.fields[n], c) && !c.destructive
    case DropIndex => n in was.fields && n in now.fields && TurnedOn(now.fields[n], was.fields[n], c) && c.destructive
    case AddRelationship => n !in was.relationships && n in now.relationships && c.detail == Whole && !c.destructive
    case DropRelationship => n in was.relationships && n !in now.relationships && c.detail == Whole && c.destructive
    case AlterRelationship =>
      && n in was.relationships && n in now.relationships && was.relationships[n] != now.relationships[n]
      && c.detail == Ends(was.relationships[n], now.relationships[n]) && c.destructive
  }

  predicate OfField(c: Change) {
    c.kind.AddField? || c.kind.DropField? || c.kind.AlterField? || c.kind.AddIndex? || c.kind.DropIndex?
  }

  predicate OfRelationship(c: Change) {
    c.kind.AddRelationship? || c.kind.DropRelationship? || c.kind.AlterRelationship?
  }

  /** How often the change occurs. */
  function Times(cs: seq<Change>, c: Change): nat {
    multiset(cs)[c]
  }

  lemma TimesAppend(a: seq<Change>, b: seq<Change>, c: Change)
    ensures Times(a + b, c) == Times(a, c) + Times(b, c)
  {
  }

  lemma TimesWhen(b: bool, x: Change, c: Change)
    ensures Times(When(b, x), c) == if b && x == c then 1 else 0
  {
  }

  lemma TimesSix(a: seq<Change>, b: seq<Change>, c: seq<Change>, d: seq<Change>, e: seq<Change>, f: seq<Change>, x: Change)
    ensures Times(Six(a, b, c, d, e, f), x) == Times(a, x) + Times(b, x) + Times(c, x) + Times(d, x) + Times(e, x) + Times(f, x)
  {
  }

  lemma TimesAttribute(model: string, name: string, attribute: string, before: bool, after: bool, c: Change)
    ensures Times(AttributeChange(model, name, attribute, before, after), c) ==
      if before != after && c == Change(if after then AddIndex else DropIndex, model, name, Attribute(attribute), before) then 1 else 0
  {
  }

  lemma TimesNullability(model: string, name: string, before: bool, after: bool, c: Change)
    ensures Times(NullabilityChange(model, name, before, after), c) ==
      if before != after && c == Change(AlterField, model, name, if before then NotNull else Nullable, before) then 1 else 0
  {
  }

  lemma DifferentAttributes()
    ensures "index" != "unique" && "unique" != "primary_key" && "index" != "primary_key"
  {
    assert |"index"| == 5 && |"unique"| == 6 && |"primary_key"| == 11;
  }

  lemma AlterationsAre(model: string, n: string, was: Field, now: Field, c: Change)
    ensures
      Times(When(was.kind != now.kind, Change(AlterField, model, n, TypeOf(was.kind, now.kind), true)), c)
      + Times(When(was.vectorDim != now.vectorDim, Change(AlterField, model, n, DimensionOf(was.vectorDim, now.vectorDim), true)), c)
      + Times(NullabilityChange(model, n, was.nullable, now.nullable), c) ==
      if c.model == model && c.target == n && c.kind.AlterField? && Altered(was, now, c) then 1 else 0
  {
    hide Times, When, NullabilityChange;
    TimesWhen(was.kind != now.kind, Change(AlterField, model, n, TypeOf(was.kind, now.kind), true), c);
    TimesWhen(was.vectorDim != now.vectorDim, Change(AlterField, model, n, DimensionOf(was.vectorDim, now.vectorDim), true), c);
    TimesNullability(model, n, was.nullable, now.nullable, c);
  }

  lemma AttributesAre(model: string, n: string, was: Field, now: Field, c: Change)
    ensures
      Times(AttributeChange(model, n, "index", was.index, now.index), c)
      + Times(AttributeChange(model, n, "unique", was.unique, now.unique), c)
      + Times(AttributeChange(model, n, "primary_key", was.primaryKey, now.primaryKey), c) ==
      if c.model == model && c.target == n &&
         ((c.kind.AddIndex? && TurnedOn(was, now, c) && !c.destructive) || (c.kind.DropIndex? && TurnedOn(now, was, c) && c.destructive))
      then 1 else 0
  {
    hide Times, AttributeChange;
    TimesAttribute(model, n, "index", was.index, now.index, c);
    TimesAttribute(model, n, "unique", was.unique, now.unique, c);
    TimesAttribute(model, n, "primary_key", was.primaryKey, now.primaryKey, c);
    DifferentAttributes();
  }

  lemma FieldChangesAre(model: string, n: string, was: Field, now: Field, c: Change)
    ensures Times(FieldChanges(model, n, was, now), c) ==
      if c.model == model && c.target == n &&
         ((c.kind.AlterField? && Altered(was, now, c)) || (c.kind.AddIndex? && TurnedOn(was, now, c) && !c.destructive)
          || (c.kind.DropIndex? && TurnedOn(now, was, c) && c.destructive))
      then 1 else 0
  {
    hide Times, When, AttributeChange, NullabilityChange, Six, Altered, TurnedOn;
    TimesSix(When(was.kind != now.kind, Change(AlterField, model, n, TypeOf(was.kind, now.kind), true)),
             When(was.vectorDim != now.vectorDim, Change(AlterField, model, n, DimensionOf(was.vectorDim, now.vectorDim), true)),
             NullabilityChange(model, n, was.nullable, now.nullable),
             AttributeChange(model, n, "index", was.index, now.index),
             AttributeChange(model, n, "unique", was.unique, now.unique),
             AttributeChange(model, n, "primary_key", was.primaryKey, now.primaryKey), c);
    AlterationsAre(model, n, was, now, c);
    AttributesAre(model, n, was, now, c);
  }

  lemma FieldDeltaIs(model: string, n: string, was: Model, now: Model, c: Change)
    ensures Times(FieldDelta(model, n, was, now), c) ==
      if c.model == model && c.target == n && OfField(c) && DueInModel(was, now, c) then 1 else 0
  {
    hide FieldChanges;
    if n in was.fields && n in now.fields {
      FieldChangesAre(model, n, was.fields[n], now.fields[n], c);
    }
  }

  lemma RelationshipDeltaIs(model: string, n: string, was: Model, now: Model, c: Change)
    ensures Times(RelationshipDelta(model, n, was, now), c) ==
      if c.model == model && c.target == n && OfRelationship(c) && DueInModel(was, now, c) then 1 else 0
  {
    hide Times, When;
    if n in was.relationships && n in now.relationships {
      var (before, after) := (was.relationships[n], now.relationships[n]);
      TimesWhen(before != after, Change(AlterRelationship, model, n, Ends(before, after), true), c);
    } else {
      NoChanges(c);
      TimesWhen(true, Change(AddRelationship, model, n, Whole, false), c);
      TimesWhen(true, Change(DropRelationship, model, n, Whole, true), c);
      OneChange(Change(AddRelationship, model, n, Whole, false));
      OneChange(Change(DropRelationship, model, n, Whole, true));
    }
  }

  lemma OneChange(x: Change)
    ensures When(true, x) == [x]
  {
  }

  lemma {:induction false} TimesFlatMap(names: seq<string>, delta: string -> seq<Change>, c: Change, n: string)
    requires forall i, j :: 0 <= i < j < |names| ==> names[i] != names[j]
    requires forall x :: x in names && x != n ==> Times(delta(x), c) == 0
    ensures Times(FlatMap(names, delta), c) == if n in names then Times(delta(n), c) else 0
  {
    hide Times;
    if names == [] {
      NoChanges(c);
    } else {
      TimesFlatMap(names[1..], delta, c, n);
      TimesAppend(delta(names[0]), FlatMap(names[1..], delta), c);
      assert names == [names[0]] + names[1..];
    }
  }

  lemma NoChanges(c: Change)
    ensures Times([], c) == 0
  {
  }

  lemma {:induction false} NamesDistinct(s: set<string>)
    ensures forall i, j :: 0 <= i < j < |Names(s)| ==> Names(s)[i] != Names(s)[j]
    decreases |s|
  {
    if s != {} {
      NamesDistinct(s - {Least(s)});
      NamesHold(s - {Least(s)});
    }
  }

  lemma TimesDeltas(was: set<string>, now: set<string>, delta: string -> seq<Change>, c: Change, n: string)
    requires forall x :: x != n ==> Times(delta(x), c) == 0
    ensures Times(Deltas(was, now, delta), c) == if n in was + now then Times(delta(n), c) else 0
  {
    hide Times, FlatMap, Names;
    var added, dropped, both := Names(now - was), Names(was - now), Names(was * now);
    NamesHold(now - was);
    NamesHold(was - now);
    NamesHold(was * now);
    NamesDistinct(now - was);
    NamesDistinct(was - now);
    NamesDistinct(was * now);
    TimesFlatMap(added, delta, c, n);
    TimesFlatMap(dropped, delta, c, n);
    TimesFlatMap(both, delta, c, n);
    TimesAppend(FlatMap(added, delta) + FlatMap(dropped, delta), FlatMap(both, delta), c);
    TimesAppend(FlatMap(added, delta), FlatMap(dropped, delta), c);
  }

  lemma ModelChangesAre(model: string, was: Model, now: Model, c: Change)
    ensures Times(ModelChanges(model, was, now), c) == if c.model == model && DueInModel(was, now, c) then 1 else 0
  {
    hide Times, Deltas, FieldDelta, RelationshipDelta;
    var fields, relationships := FieldDeltas(model, was, now), RelationshipDeltas(model, was, now);
    forall x ensures Times(fields(x), c) == if c.model == model && c.target == x && OfField(c) && DueInModel(was, now, c) then 1 else 0 {
      FieldDeltaIs(model, x, was, now, c);
    }
    forall x ensures Times(relationships(x), c) ==
      if c.model == model && c.target == x && OfRelationship(c) && DueInModel(was, now, c) then 1 else 0
    {
      RelationshipDeltaIs(model, x, was, now, c);
    }
    TimesDeltas(was.fields.Keys, now.fields.Keys, fields, c, c.target);
    TimesDeltas(was.relationships.Keys, now.relationships.Keys, relationships, c, c.target);
    TimesAppend(Deltas(was.fields.Keys, now.fields.Keys, fields), Deltas(was.relationships.Keys, now.relationships.Keys, relationships), c);
  }

  lemma ModelDeltaIs(m: string, was: Schema, now: Schema, c: Change)
    ensures Times(ModelDelta(m, was, now), c) == if c.model == m && Due(was, now, c) then 1 else 0
  {
    hide ModelChanges;
    if m in was && m in now {
      ModelChangesAre(m, was[m], now[m], c);
    }
  }

  /** A plan holds every change that is due, once, and no other. */
  lemma PlanIsWhatIsDue(was: Schema, now: Schema, c: Change)
    ensures multiset(Plan(was, now))[c] == if Due(was, now, c) then 1 else 0
    ensures c in Plan(was, now) <==> Due(was, now, c)
  {
    hide ModelDelta, Deltas, DueInModel;
    var delta := ModelDeltas(was, now);
    forall x ensures Times(delta(x), c) == if c.model == x && Due(was, now, c) then 1 else 0 {
      ModelDeltaIs(x, was, now, c);
    }
    TimesDeltas(was.Keys, now.Keys, delta, c, c.model);
    SortKeeps(Unsorted(was, now));
    assert Times(Unsorted(was, now), c) == multiset(Plan(was, now))[c];
    assert c in Plan(was, now) <==> c in multiset(Plan(was, now));
  }

  /** A model's changes come additions first, then what drops, by kind in this order. */
  lemma KindsComeInOrder()
    ensures
      var order := [AddModel, DropModel, AddField, AlterField, DropField, AddIndex, DropIndex,
                    AddRelationship, AlterRelationship, DropRelationship];
      forall k: Kind :: KindOrder(k) < |order| && order[KindOrder(k)] == k
  {
  }

  /** Of two changes of a plan the earlier one has the smaller model name, or the same and the earlier kind, or
      both the same and the smaller target. */
  lemma PlanComesInOrder(was: Schema, now: Schema, i: nat, j: nat)
    requires i < j < |Plan(was, now)|
    ensures
      var a, b := Plan(was, now)[i], Plan(was, now)[j];
      && StrLeq(a.model, b.model)
      && (a.model == b.model ==> KindOrder(a.kind) <= KindOrder(b.kind))
      && (a.model == b.model && a.kind == b.kind ==> StrLeq(a.target, b.target))
  {
    PlanIsOrdered(was, now);
    StrLeqTotal(Plan(was, now)[i].model, Plan(was, now)[i].model);
  }
}
