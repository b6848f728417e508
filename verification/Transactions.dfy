/**
  Transactions of the reference engine as steps on values, over every interleaving of the requests of
  any number of transactions.
 */
module Transactions {
  import opened Predicates
  import opened Tables

  type Store = map<string, Table>

  type Catalog = map<string, Model>

  datatype Operation = Change(model: string, mutation: Mutation) | Query(model: string)

  datatype Request = Begin(tx: nat) | Commit(tx: nat) | Rollback(tx: nat) | Operate(tx: nat, op: Operation)

  datatype Server = Server(tables: Store, overlays: map<nat, Store>)

  // ----- steps -----

  function ModelNamed(catalog: Catalog, name: string): Model {
    if name in catalog then catalog[name] else Model("id", {})
  }

  function TableNamed(store: Store, name: string): Table {
    if name in store then store[name] else []
  }

  /** Naming a model that has no table yet creates an empty one, even in a query. */
  function Perform(catalog: Catalog, store: Store, op: Operation): Store {
    var t := TableNamed(store, op.model);
    store[op.model := if op.Query? then t else Mutate(ModelNamed(catalog, op.model), t, op.mutation).0]
  }

  /** A query reads the rows of its table, before filters, order and page are applied to them. */
  datatype Response = Rows(rows: seq<Row>) | Changed(outcome: Outcome)

  function Answer(catalog: Catalog, store: Store, op: Operation): Response {
    var t := TableNamed(store, op.model);
    if op.Query? then Rows(RowsOf(t)) else Changed(Mutate(ModelNamed(catalog, op.model), t, op.mutation).1)
  }

  /** Transaction 0 never uses an overlay, even after a BEGIN that carries it. */
  predicate InOverlay(s: Server, tx: nat) {
    tx != 0 && tx in s.overlays
  }

  function Visible(s: Server, tx: nat): Store {
    if InOverlay(s, tx) then s.overlays[tx] else s.tables
  }

  function Step(catalog: Catalog, s: Server, r: Request): Server {
    match r
    case Begin(tx) => s.(overlays := s.overlays[tx := s.tables])
    case Commit(tx) => if tx in s.overlays then Server(s.overlays[tx], s.overlays - {tx}) else s
    case Rollback(tx) => s.(overlays := s.overlays - {tx})
    case Operate(tx, op) =>
      var store := Perform(catalog, Visible(s, tx), op);
      if InOverlay(s, tx) then s.(overlays := s.overlays[tx := store]) else s.(tables := store)
  }

  function Run(catalog: Catalog, s: Server, rs: seq<Request>): Server
    decreases |rs|
  {
    if rs == [] then s else Run(catalog, Step(catalog, s, rs[0]), rs[1..])
  }

  // ----- a transaction sees its snapshot and its own writes -----

  /** No request of the list starts or ends the transaction. */
  predicate Within(rs: seq<Request>, tx: nat) {
    forall r :: r in rs ==> r.Operate? || r.tx != tx
  }

  function OperationsOf(rs: seq<Request>, tx: nat): seq<Operation> {
    if rs == [] then []
    else (if rs[0].Operate? && rs[0].tx == tx then [rs[0].op] else []) + OperationsOf(rs[1..], tx)
  }

  function Replay(catalog: Catalog, store: Store, ops: seq<Operation>): Store
    decreases |ops|
  {
    if ops == [] then store else Replay(catalog, Perform(catalog, store, ops[0]), ops[1..])
  }

  lemma {:induction false} OverlayFollowsItsOwner(catalog: Catalog, s: Server, rs: seq<Request>, tx: nat)
    requires InOverlay(s, tx) && Within(rs, tx)
    ensures InOverlay(Run(catalog, s, rs), tx)
    ensures Run(catalog, s, rs).overlays[tx] == Replay(catalog, s.overlays[tx], OperationsOf(rs, tx))
    decreases |rs|
  {
    if rs != [] {
      assert rs[0] in rs;
      OverlayFollowsItsOwner(catalog, Step(catalog, s, rs[0]), rs[1..], tx);
      if rs[0].Operate? && rs[0].tx == tx {
        assert ([rs[0].op] + OperationsOf(rs[1..], tx))[1..] == OperationsOf(rs[1..], tx);
      } else {
        assert OperationsOf(rs, tx) == OperationsOf(rs[1..], tx);
      }
    }
  }

  /** Whatever other transactions do meanwhile, an open transaction reads the base store of its
      BEGIN with its own operations applied in order. */
  lemma SnapshotWithOwnWrites(catalog: Catalog, s: Server, rs: seq<Request>, tx: nat)
    requires tx != 0 && Within(rs, tx)
    ensures Visible(Run(catalog, Step(catalog, s, Begin(tx)), rs), tx) == Replay(catalog, s.tables, OperationsOf(rs, tx))
  {
    OverlayFollowsItsOwner(catalog, Step(catalog, s, Begin(tx)), rs, tx);
  }

  /** COMMIT makes the base exactly the view of the transaction and touches no other overlay: what
      was committed or written directly since the BEGIN is lost. */
  lemma CommitInstallsTheView(catalog: Catalog, s: Server, rs: seq<Request>, tx: nat)
    requires tx != 0 && Within(rs, tx)
    ensures
      var before := Run(catalog, Step(catalog, s, Begin(tx)), rs);
      var after := Step(catalog, before, Commit(tx));
      && after.tables == Replay(catalog, s.tables, OperationsOf(rs, tx))
      && after.overlays == before.overlays - {tx}
  {
    OverlayFollowsItsOwner(catalog, Step(catalog, s, Begin(tx)), rs, tx);
  }

  lemma {:induction false} RunAppend(catalog: Catalog, s: Server, rs: seq<Request>, more: seq<Request>)
    ensures Run(catalog, s, rs + more) == Run(catalog, Run(catalog, s, rs), more)
    decreases |rs|
  {
    if rs == [] {
      assert rs + more == more;
    } else {
      assert (rs + more)[0] == rs[0] && (rs + more)[1..] == rs[1..] + more;
      RunAppend(catalog, Step(catalog, s, rs[0]), rs[1..], more);
    }
  }

  lemma {:induction false} OperationsAround(mid: seq<Request>, r: Request, end: seq<Request>, tx: nat)
    requires !r.Operate?
    ensures OperationsOf(mid + ([r] + end), tx) == OperationsOf(mid, tx) + OperationsOf(end, tx)
  {
    if mid == [] {
      assert mid + ([r] + end) == [r] + end;
      assert ([r] + end)[1..] == end;
    } else {
      OperationsAround(mid[1..], r, end, tx);
      assert (mid + ([r] + end))[1..] == mid[1..] + ([r] + end);
      var own := if mid[0].Operate? && mid[0].tx == tx then [mid[0].op] else [];
      assert own + (OperationsOf(mid[1..], tx) + OperationsOf(end, tx)) == own + OperationsOf(mid[1..], tx) + OperationsOf(end, tx);
    }
  }

  /** The last committer wins: when two transactions overlap, nothing the first committer did is
      left once the second commits. There is no conflict detection. */
  lemma LastCommitterWins(catalog: Catalog, s: Server, mid: seq<Request>, end: seq<Request>, first: nat, last: nat)
    requires first != 0 && last != 0 && first != last
    requires Within(mid, first) && Within(mid, last) && Within(end, last)
    ensures
      var bothOpen := Step(catalog, Step(catalog, s, Begin(first)), Begin(last));
      Step(catalog, Run(catalog, bothOpen, mid + ([Commit(first)] + end)), Commit(last)).tables ==
        Replay(catalog, s.tables, OperationsOf(mid, last) + OperationsOf(end, last))
  {
    OperationsAround(mid, Commit(first), end, last);
    CommitInstallsTheView(catalog, Step(catalog, s, Begin(first)), mid + ([Commit(first)] + end), last);
  }

  // ----- a transaction that does not commit leaves no trace -----

  function Forget(s: Server, tx: nat): Server {
    s.(overlays := s.overlays - {tx})
  }

  function Erase(rs: seq<Request>, tx: nat): seq<Request> {
    if rs == [] then [] else (if rs[0].tx == tx then [] else [rs[0]]) + Erase(rs[1..], tx)
  }

  lemma ForgetStep(catalog: Catalog, s: Server, r: Request, tx: nat)
    requires r.tx != tx
    ensures Forget(Step(catalog, s, r), tx) == Step(catalog, Forget(s, tx), r)
  {
    hide Perform;
    var a, b := Forget(Step(catalog, s, r), tx), Step(catalog, Forget(s, tx), r);
    assert a.tables == b.tables;
    assert a.overlays == b.overlays;
  }

  lemma ForgetOwnStep(catalog: Catalog, s: Server, r: Request, tx: nat)
    requires InOverlay(s, tx) && r.tx == tx && !r.Commit? && !r.Rollback?
    ensures Forget(Step(catalog, s, r), tx) == Forget(s, tx) && InOverlay(Step(catalog, s, r), tx)
  {
    assert Forget(Step(catalog, s, r), tx).overlays == s.overlays - {tx};
  }

  /** Isolation: up to its own overlay, a server that ran an open transaction is the server that
      never received its requests. Every other transaction therefore reads the same. */
  lemma {:induction false} OpenTransactionsAreInvisible(catalog: Catalog, s: Server, rs: seq<Request>, tx: nat)
    requires InOverlay(s, tx)
    requires forall r :: r in rs && r.tx == tx ==> !r.Commit? && !r.Rollback?
    ensures Forget(Run(catalog, s, rs), tx) == Run(catalog, Forget(s, tx), Erase(rs, tx))
    ensures forall u :: u != tx ==>
      Visible(Run(catalog, s, rs), u) == Visible(Run(catalog, Forget(s, tx), Erase(rs, tx)), u)
    decreases |rs|
  {
    if rs != [] {
      var r := rs[0];
      assert r in rs;
      if r.tx == tx {
        ForgetOwnStep(catalog, s, r, tx);
        assert Erase(rs, tx) == Erase(rs[1..], tx);
      } else {
        ForgetStep(catalog, s, r, tx);
        assert Erase(rs, tx)[1..] == Erase(rs[1..], tx);
      }
      OpenTransactionsAreInvisible(catalog, Step(catalog, s, r), rs[1..], tx);
    }
  }

  /** A rolled-back transaction leaves the server as if it had never been. */
  lemma RollbackLeavesNoTrace(catalog: Catalog, s: Server, rs: seq<Request>, tx: nat)
    requires tx != 0 && tx !in s.overlays && Within(rs, tx)
    ensures Run(catalog, s, [Begin(tx)] + rs + [Rollback(tx)]) == Run(catalog, s, Erase(rs, tx))
  {
    var begun := Step(catalog, s, Begin(tx));
    var all := [Begin(tx)] + rs + [Rollback(tx)];
    assert all[0] == Begin(tx) && all[1..] == rs + [Rollback(tx)];
    RunAppend(catalog, begun, rs, [Rollback(tx)]);
    OpenTransactionsAreInvisible(catalog, begun, rs, tx);
    assert Forget(begun, tx).overlays == s.overlays;
    var before := Run(catalog, begun, rs);
    assert [Rollback(tx)][1..] == [];
    assert Run(catalog, before, [Rollback(tx)]) == Step(catalog, before, Rollback(tx)) == Forget(before, tx);
  }

  // ----- when a commit loses nothing -----

  predicate TouchesBase(s: Server, r: Request) {
    (r.Commit? && r.tx in s.overlays) || (r.Operate? && !InOverlay(s, r.tx))
  }

  /** No request of the run reaches the base store. */
  predicate Quiet(catalog: Catalog, s: Server, rs: seq<Request>)
    decreases |rs|
  {
    rs == [] || (!TouchesBase(s, rs[0]) && Quiet(catalog, Step(catalog, s, rs[0]), rs[1..]))
  }

  lemma {:induction false} QuietRunsKeepTheBase(catalog: Catalog, s: Server, rs: seq<Request>)
    requires Quiet(catalog, s, rs)
    ensures Run(catalog, s, rs).tables == s.tables
    decreases |rs|
  {
    if rs != [] {
      QuietRunsKeepTheBase(catalog, Step(catalog, s, rs[0]), rs[1..]);
    }
  }

  /** A transaction whose life no commit and no direct write falls into is serializable: committing
      it is performing its operations on the base of that moment. */
  lemma UndisturbedCommitIsSerial(catalog: Catalog, s: Server, rs: seq<Request>, tx: nat)
    requires tx != 0 && Within(rs, tx) && Quiet(catalog, Step(catalog, s, Begin(tx)), rs)
    ensures
      var before := Run(catalog, Step(catalog, s, Begin(tx)), rs);
      Step(catalog, before, Commit(tx)).tables == Replay(catalog, before.tables, OperationsOf(rs, tx))
  {
    CommitInstallsTheView(catalog, s, rs, tx);
    QuietRunsKeepTheBase(catalog, Step(catalog, s, Begin(tx)), rs);
  }

  // ----- transaction 0 -----

  lemma {:induction false} OverlayZeroIsFrozen(catalog: Catalog, s: Server, rs: seq<Request>)
    requires 0 in s.overlays && Within(rs, 0)
    ensures 0 in Run(catalog, s, rs).overlays && Run(catalog, s, rs).overlays[0] == s.overlays[0]
    decreases |rs|
  {
    if rs != [] {
      assert rs[0] in rs;
      OverlayZeroIsFrozen(catalog, Step(catalog, s, rs[0]), rs[1..]);
    }
  }

  /** Under id 0 a BEGIN stores a snapshot that its operations bypass, so its COMMIT undoes every
      change made since, its own included. */
  lemma CommitZeroRestoresTheSnapshot(catalog: Catalog, s: Server, rs: seq<Request>)
    requires Within(rs, 0)
    ensures Step(catalog, Run(catalog, Step(catalog, s, Begin(0)), rs), Commit(0)).tables == s.tables
  {
    OverlayZeroIsFrozen(catalog, Step(catalog, s, Begin(0)), rs);
  }

  // ----- keys over whole runs -----

  ghost predicate StoreKeyed(catalog: Catalog, store: Store, consistent: bool) {
    forall m :: m in store ==> Keyed(store[m]) && (consistent ==> Consistent(ModelNamed(catalog, m), store[m]))
  }

  ghost predicate ServerKeyed(catalog: Catalog, s: Server, consistent: bool) {
    StoreKeyed(catalog, s.tables, consistent) && forall tx :: tx in s.overlays ==> StoreKeyed(catalog, s.overlays[tx], consistent)
  }

  /** The request writes no primary key into a row it finds. */
  predicate KeepsKeys(catalog: Catalog, r: Request) {
    r.Operate? && r.op.Change? ==> ModelNamed(catalog, r.op.model).key !in Overwrites(r.op.mutation)
  }

  lemma PerformKeeps(catalog: Catalog, store: Store, op: Operation, consistent: bool)
    requires StoreKeyed(catalog, store, consistent)
    requires consistent && op.Change? ==> ModelNamed(catalog, op.model).key !in Overwrites(op.mutation)
    ensures StoreKeyed(catalog, Perform(catalog, store, op), consistent)
  {
    if op.Change? {
      MutationKeeps(ModelNamed(catalog, op.model), TableNamed(store, op.model), op.mutation);
    }
  }

  /** Over every run no table of any store holds a key twice; and as long as no request writes a
      primary key into existing rows, every row of every store lies under its own primary key. */
  lemma {:induction false} RunsKeepKeys(catalog: Catalog, s: Server, rs: seq<Request>, consistent: bool)
    requires ServerKeyed(catalog, s, consistent)
    requires consistent ==> forall r :: r in rs ==> KeepsKeys(catalog, r)
    ensures ServerKeyed(catalog, Run(catalog, s, rs), consistent)
    decreases |rs|
  {
    hide Perform, Keyed, Consistent;
    if rs != [] {
      var r := rs[0];
      assert r in rs;
      if r.Operate? {
        PerformKeeps(catalog, Visible(s, r.tx), r.op, consistent);
      }
      RunsKeepKeys(catalog, Step(catalog, s, r), rs[1..], consistent);
    }
  }
}
