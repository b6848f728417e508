/**
  The stores of the reference engine on the heap: every method refines the step of the same name on
  values, and no row object is shared between two stores.
 */
module ReferenceStore {
  import opened Values
  import opened Predicates
  import opened Tables
  import opened Records
  import T = Transactions

  /** No row object stands in two tables or twice in one. */
  ghost predicate Separate(models: map<string, HeapTable>) {
    && (forall m :: m in models ==> Distinct(models[m]))
    && (forall m, n :: m in models && n in models && m != n ==> Owned(models[m]) !! Owned(models[n]))
  }

  /** The table of a model, an absent one being empty. */
  function TableOf(models: map<string, HeapTable>, model: string): (t: HeapTable)
    requires Separate(models)
    ensures Distinct(t) && (model !in models ==> Owned(t) == {})
    ensures forall m :: m in models && m != model ==> Owned(t) !! Owned(models[m])
  {
    if model in models then models[model] else []
  }

  lemma SeparateEmpty()
    ensures Separate(map[])
  {
  }

  lemma SetTable(models: map<string, HeapTable>, name: string, t: HeapTable)
    requires Separate(models) && Distinct(t)
    requires forall m :: m in models && m != name ==> Owned(t) !! Owned(models[m])
    ensures Separate(models[name := t])
  {
  }

  /** The contents of the tables. */
  ghost function ViewOf(models: map<string, HeapTable>): T.Store
    reads set m, r | m in models && r in Owned(models[m]) :: r
  {
    map m | m in models :: TableView(models[m])
  }

  /** The row objects of the other tables are none of this table's. */
  lemma SeparateOthers(models: map<string, HeapTable>, name: string, t: HeapTable)
    requires Separate(models) && t == TableOf(models, name)
    ensures forall m :: m in models - {name} ==> Owned(models[m]) !! Owned(t)
  {
  }

  lemma TableViewOf(models: map<string, HeapTable>, name: string)
    requires Separate(models)
    ensures T.TableNamed(ViewOf(models), name) == TableView(TableOf(models, name))
  {
  }

  lemma PerformChangesOneTable(catalog: T.Catalog, store: T.Store, op: T.Operation)
    ensures T.Perform(catalog, store, op) == (store - {op.model})[op.model := T.Perform(catalog, store, op)[op.model]]
  {
  }

  class Store {
    var models: map<string, HeapTable>
    ghost var Repr: set<object>

    ghost predicate Valid()
      reads this, Repr
    {
      this in Repr && Separate(models) && forall m :: m in models ==> Owned(models[m]) <= Repr
    }

    ghost function View(): T.Store
      reads this, Repr
      requires Valid()
    {
      map m | m in models :: TableView(models[m])
    }

    constructor ()
      ensures Valid() && fresh(Repr) && View() == map[]
    {
      models, Repr := map[], {this};
    }

    /** A deep copy: new row objects throughout. */
    constructor Copy(other: Store)
      requires other.Valid()
      ensures Valid() && this in Repr && fresh(Repr) && View() == other.View()
    {
      hide Separate, Distinct, Owned, TableView;
      models, Repr := map[], {this};
      new;
      SeparateEmpty();
      var names := other.models.Keys;
      while names != {}
        invariant names <= other.models.Keys && models.Keys == other.models.Keys - names
        invariant Valid() && fresh(Repr)
        invariant forall m :: m in models ==> TableView(models[m]) == TableView(other.models[m])
      {
        var name :| name in names;
        var t := CopyTable(other.models[name]);
        SetTable(models, name, t);
        models := models[name := t];
        Repr := Repr + Owned(t);
        names := names - {name};
      }
    }

    method PerformOn(model: Model, t: HeapTable, op: T.Operation) returns (t': HeapTable, r: T.Response)
      requires Distinct(t)
      modifies Owned(t)
      ensures Distinct(t') && fresh(Owned(t') - Owned(t))
      ensures TableView(t') == if op.Query? then old(TableView(t)) else Mutate(model, old(TableView(t)), op.mutation).0
      ensures r == if op.Query? then T.Rows(RowsOf(old(TableView(t))))
                   else T.Changed(Mutate(model, old(TableView(t)), op.mutation).1)
    {
      if op.Query? {
        t' := t;
        var rows: seq<Row> := [];
        for i := 0 to |t|
          invariant |rows| == i && forall k :: 0 <= k < i ==> rows[k] == t[k].row.fields
        {
          rows := rows + [t[i].row.fields];
        }
        r := T.Rows(rows);
      } else {
        var outcome;
        t', outcome := MutateRecords(model, t, op.mutation);
        r := T.Changed(outcome);
      }
    }

    method Perform(catalog: T.Catalog, op: T.Operation) returns (r: T.Response)
      requires Valid()
      modifies Repr
      ensures Valid() && this in Repr && fresh(Repr - old(Repr))
      ensures View() == T.Perform(catalog, old(View()), op)
      ensures r == T.Answer(catalog, old(View()), op)
    {
      hide Separate, Distinct, Owned, TableView, Mutate, RowsOf, T.ModelNamed;
      var t := TableOf(models, op.model);
      ghost var others := models - {op.model};
      SeparateOthers(models, op.model, t);
      ghost var before := View();
      assert before - {op.model} == ViewOf(others);
      assert T.TableNamed(before, op.model) == TableView(t) by {
        TableViewOf(models, op.model);
      }
      var t';
      t', r := PerformOn(T.ModelNamed(catalog, op.model), t, op);
      assert ViewOf(others) == before - {op.model};
      assert TableView(t') == T.Perform(catalog, before, op)[op.model];
      SetTable(models, op.model, t');
      Install(op.model, t');
      PerformChangesOneTable(catalog, before, op);
    }

    /** Puts a table in its place. */
    method Install(name: string, t: HeapTable)
      requires this in Repr && Separate(models[name := t]) && forall m :: m in models && m != name ==> Owned(models[m]) <= Repr
      modifies this
      ensures Valid() && Repr == old(Repr) + Owned(t)
      ensures View() == old(ViewOf(models - {name})[name := TableView(t)])
    {
      hide Separate, Distinct, Owned, TableView;
      models := models[name := t];
      Repr := Repr + Owned(t);
    }
  }

  class ReferenceServer {
    const catalog: T.Catalog
    var tables: Store
    var overlays: map<nat, Store>
    ghost var Repr: set<object>

    /** No two stores share a row object. */
    ghost predicate Valid()
      reads this, Repr
    {
      && this in Repr && Inside(tables)
      && (forall tx :: tx in overlays ==> Inside(overlays[tx]) && overlays[tx].Repr !! tables.Repr)
      && (forall tx, u :: tx in overlays && u in overlays && tx != u ==> overlays[tx].Repr !! overlays[u].Repr)
    }

    ghost predicate Inside(store: Store)
      reads this, Repr
    {
      store in Repr && store in store.Repr && store.Repr <= Repr && this !in store.Repr && store.Valid()
    }

    ghost function Abstract(): T.Server
      reads this, Repr
      requires Valid()
    {
      T.Server(tables.View(), map tx | tx in overlays :: overlays[tx].View())
    }

    constructor (catalog: T.Catalog)
      ensures Valid() && fresh(Repr) && this.catalog == catalog && Abstract() == T.Server(map[], map[])
    {
      this.catalog := catalog;
      var base := new Store();
      tables, overlays := base, map[];
      Repr := {this} + base.Repr;
    }

    method Begin(tx: nat)
      requires Valid()
      modifies this
      ensures Valid() && fresh(Repr - old(Repr))
      ensures Abstract() == T.Step(catalog, old(Abstract()), T.Begin(tx))
    {
      hide Store.Valid, Store.View;
      var copy := new Store.Copy(tables);
      Attach(tx, copy);
    }

    method Attach(tx: nat, store: Store)
      requires Valid() && store in store.Repr && store.Valid() && store.Repr !! Repr
      modifies this
      ensures Valid() && Repr == old(Repr) + store.Repr
      ensures Abstract() == old(Abstract()).(overlays := old(Abstract()).overlays[tx := store.View()])
    {
      hide Store.Valid, Store.View;
      overlays := overlays[tx := store];
      Repr := Repr + store.Repr;
    }

    method Commit(tx: nat)
      requires Valid()
      modifies this
      ensures Valid() && Repr == old(Repr)
      ensures Abstract() == T.Step(catalog, old(Abstract()), T.Commit(tx))
    {
      hide Store.Valid, Store.View, T.Perform, T.Answer;
      if tx in overlays {
        tables, overlays := overlays[tx], overlays - {tx};
      }
    }

    method Rollback(tx: nat)
      requires Valid()
      modifies this
      ensures Valid() && Repr == old(Repr)
      ensures Abstract() == T.Step(catalog, old(Abstract()), T.Rollback(tx))
    {
      hide Store.Valid, Store.View, T.Perform, T.Answer;
      overlays := overlays - {tx};
    }

    method OperateInOverlay(tx: nat, op: T.Operation) returns (r: T.Response)
      requires Valid() && tx in overlays
      modifies this`Repr, overlays[tx].Repr
      ensures Valid() && fresh(Repr - old(Repr))
      ensures Abstract() == old(Abstract()).(overlays := old(Abstract()).overlays[tx := T.Perform(catalog, old(overlays[tx].View()), op)])
      ensures r == T.Answer(catalog, old(overlays[tx].View()), op)
    {
      hide Store.Valid, Store.View, T.Perform, T.Answer;
      r := overlays[tx].Perform(catalog, op);
      Repr := Repr + overlays[tx].Repr;
    }

    method OperateOnBase(op: T.Operation) returns (r: T.Response)
      requires Valid()
      modifies this`Repr, tables.Repr
      ensures Valid() && fresh(Repr - old(Repr))
      ensures Abstract() == old(Abstract()).(tables := T.Perform(catalog, old(tables.View()), op))
      ensures r == T.Answer(catalog, old(tables.View()), op)
    {
      hide Store.Valid, Store.View, T.Perform, T.Answer;
      r := tables.Perform(catalog, op);
      Repr := Repr + tables.Repr;
    }

    method Operate(tx: nat, op: T.Operation) returns (r: T.Response)
      requires Valid()
      modifies Repr
      ensures Valid() && fresh(Repr - old(Repr))
      ensures Abstract() == T.Step(catalog, old(Abstract()), T.Operate(tx, op))
      ensures r == T.Answer(catalog, T.Visible(old(Abstract()), tx), op)
    {
      hide Store.Valid, Store.View, T.Perform, T.Answer;
      if tx != 0 && tx in overlays {
        r := OperateInOverlay(tx, op);
      } else {
        r := OperateOnBase(op);
      }
    }

    /** One request: the transaction opcodes, queries and mutations. */
    method Dispatch(request: T.Request) returns (r: Option<T.Response>)
      requires Valid()
      modifies Repr
      ensures Valid() && fresh(Repr - old(Repr))
      ensures Abstract() == T.Step(catalog, old(Abstract()), request)
      ensures r == if request.Operate? then Some(T.Answer(catalog, T.Visible(old(Abstract()), request.tx), request.op)) else None
    {
      hide Abstract, T.Step, T.Answer, T.Visible;
      r := None;
      match request
      case Begin(tx) => Begin(tx);
      case Commit(tx) => Commit(tx);
      case Rollback(tx) => Rollback(tx);
      case Operate(tx, op) =>
        var response := Operate(tx, op);
        r := Some(response);
    }
  }
}
